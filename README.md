# Vector display core in Dafny

A model of the host-side core of the Vector display library (blucz/Vector), a
C library that draws glowing vector-monitor graphics. It has three parts.

- **`VectorDisplay`** (display.dfy) models `vector_display.c`. The class
  `Display` holds the fields of `struct vector_display`:
  - the drawing parameters;
  - the growable vertex buffer `points` and the pending buffer `pending_points`;
  - the ring of per-frame vertex buffers.

  Its methods model:
  - the setters and `clear`;
  - `ensure_points`, `ensure_pending_points` and `append_texpoint`;
  - the polyline lifecycle: `begin_draw`, `draw_to`, `end_draw` and `draw`;
  - `normalizef`, `draw_simple_fan` and `draw_lines`;
  - the step, slot and alpha bookkeeping of `vector_display_update`.

  Each method is proved against a specification function. A ghost `log`
  records the begin/draw_to/end calls made on the display.
- **`Tessellate`** (tessellate.dfy) gives the pure definitions those methods
  are proved against:
  - the `line_t` records that `end_draw` builds and connects;
  - the vertices `draw_lines` and `draw_simple_fan` append.

  It also proves what the tessellator promises: vertex counts, joint
  consistency, ribbon geometry and texture coordinates. Doubles and floats
  are reals. The libm functions (atan2, sin, cos, sqrt, round) are the
  fields of a `Libm` value, and the one property of the cosine that the
  joint shortening needs (positive on [-1, 1]) is the predicate
  `CosPositive`.
- **`HalfFloat`** (halffloat.dfy) models `float_to_hfloat` and
  `hfloat_to_float` (`vector_display_utils.c`), which convert between the
  binary32 and binary16 layouts of section 3.6 of IEEE 754-2008. Each value
  is the unsigned integer of its bits. Masks, shifts and `|` of disjoint
  fields are written as `%`, `/`, `*` and `+`.
- **`Shapes`** (shapes.dfy) models `vector_shapes.c`: `draw_line`,
  `draw_box`, `draw_wheel` and `draw_shape`. Each helper is a method that
  calls the display's methods. It is proved to issue exactly the calls of a
  sequence of polylines (`seq<seq<Point>>`), and those calls are proved to
  alternate begin_draw and end_draw strictly.

Where the code and its documented intent differ, the model follows the
code:
- A polyline counts as closed when both coordinate differences between its
  first and last points truncate to 0. C's integer `abs` turns the
  documented 0.1 tolerance into "strictly between -1 and 1".
- The joint shortening `t * tan(d / 2)` is not clamped to half the shorter
  segment.
- `normalizef` lands in [-epsilon, 2 pi + epsilon], not [0, 2 pi).
- A closed polyline still caps a joint whose turn is not joinable.

## Model

| member | source | states |
|---|---|---|
| HalfFloat.SingleFields | Vector/vector_display_utils.c:173 | the sign, exponent and mantissa joined at line 173 are read back unchanged by the masks of lines 101-107 |
| HalfFloat.HalfFields | Vector/vector_display_utils.c:137-139 | a half built from sign, exponent and mantissa fields gives those fields back under the masks of lines 137-139 |
| HalfFloat.HalfOfFields | Vector/vector_display_utils.c:137-139 | every half is the join of its three fields |
| HalfFloat.ShiftRight | Vector/vector_display_utils.c:124 | the right shift `mantissa >>= (14 + exp)` gives 0 for a count of 32 or more (C leaves it undefined) |
| HalfFloat.ShiftRightSmall | Vector/vector_display_utils.c:121-126 | on the subnormal path, shifting a 24-bit significand right by at least 14 leaves a value below 0x400, so it fits the half mantissa |
| HalfFloat.NormaliseGuard | Vector/vector_display_utils.c:155-160 | the test of the normalising loop (bit 10 clear) holds exactly until the leading bit of the shifted mantissa reaches bit 10, and the value stays below 0x800 |
| HalfFloat.NormaliseResult | Vector/vector_display_utils.c:152-164 | after 9 - p shifts, p being the leading bit, the exponent is (103 + p) << 23 and the masked and widened mantissa is m << (23 - p) without its leading 1 |
| HalfFloat.WidenedMantissa | Vector/vector_display_utils.c:162-164 | masking a value with its leading bit at bit 10 to 10 bits, then shifting it left by 13, drops that bit from the shifted value |
| HalfFloat.NormaliseSubnormal | Vector/vector_display_utils.c:151-165 | the normalising loop ends within 10 passes, and yields exponent field 103 + p and mantissa m << (23 - p) without its leading 1, inside 23 bits |
| HalfFloat.HalfToFloat | Vector/vector_display_utils.c:136-175 | hfloat_to_float computes HalfToSingle: NaN and Inf keep an all-ones exponent, with NaN getting an all-ones mantissa; zero keeps its sign; a subnormal becomes the equal normal single; a normal half gets exponent e + 112 and mantissa m << 13 |
| HalfFloat.FloatToHalfFields | Vector/vector_display_utils.c:99-133 | float_to_hfloat keeps the sign. NaN gives mantissa 0x3FF and exponent 0x1F. Any other single with exponent 143 or above gives Inf. Exponents 113 to 142 give e - 112 and the top 10 mantissa bits, truncated. Exponents up to 112 give a subnormal whose mantissa is the mantissa field shifted right by 126 - e |
| HalfFloat.FloatToHalfCorrectedFields | Vector/vector_display_utils.c:121-126 | the corrected conversion differs from float_to_hfloat only for exponents up to 112, where it shifts in the implicit leading 1 |
| HalfFloat.RoundTripCorrected | Vector/vector_display_utils.c:99-175 | with the corrected float_to_hfloat, every non-NaN half survives the round trip through hfloat_to_float unchanged, and a NaN comes back as sign with 0x7FFF |
| HalfFloat.CorrectedSpecial | Vector/vector_display_utils.c:142-148 | for the corrected pair, Inf round-trips unchanged and NaN comes back as the all-ones NaN of the same sign |
| HalfFloat.CorrectedZero | Vector/vector_display_utils.c:149-151 | for the corrected pair, signed zero round-trips unchanged |
| HalfFloat.CorrectedNormal | Vector/vector_display_utils.c:166-171 | for the corrected pair, every normal half round-trips unchanged |
| HalfFloat.SubnormalAsSingleFields | Vector/vector_display_utils.c:152-164 | the single a subnormal half becomes keeps the sign, has exponent 103 + p and mantissa m << (23 - p) without its leading 1 |
| HalfFloat.SubnormalRoundTrip | Vector/vector_display_utils.c:121-126 | the corrected subnormal path turns the single back into the same subnormal half |
| HalfFloat.SubnormalRoundTripAsWritten | Vector/vector_display_utils.c:121-126 | the subnormal path as written returns m without its leading 1 |
| HalfFloat.RoundTripLosesSubnormals | Vector/vector_display_utils.c:121-126 | every subnormal half is changed by the round trip as written: it loses the leading 1 of its mantissa |
| HalfFloat.SmallestSubnormalLost | Vector/vector_display_utils.c:121-126 | half 0x0001 becomes single 0x33800000 and comes back as +0 |
| HalfFloat.RoundTripAsWritten | Vector/vector_display_utils.c:99-175 | as written, zero, Inf and every normal half survive the round trip unchanged, and a NaN comes back as sign with 0x7FFF |
| HalfFloat.AsWrittenSpecial | Vector/vector_display_utils.c:110-120 | as written, Inf round-trips unchanged and NaN comes back as the all-ones NaN of the same sign |
| HalfFloat.AsWrittenZero | Vector/vector_display_utils.c:121-126 | as written, signed zero round-trips unchanged |
| HalfFloat.AsWrittenNormal | Vector/vector_display_utils.c:127-131 | as written, every normal half round-trips unchanged |
| HalfFloat.RoundTripOfRepresentable | Vector/vector_display_utils.c:127-131 | a single with exponent 113 to 142 and its low 13 mantissa bits clear survives float_to_hfloat then hfloat_to_float |
| HalfFloat.HalfToSingleClasses | Vector/vector_display_utils.c:136-175 | hfloat_to_float keeps the sign bit; its result is NaN iff the half is NaN, and has exponent 0xFF iff the half has exponent 0x1F |
| HalfFloat.SubnormalExact | Vector/vector_display_utils.c:152-164 | the normalised single has the same magnitude as the subnormal half |
| HalfFloat.NormalExact | Vector/vector_display_utils.c:166-171 | the rebiased single has the same magnitude as the normal half |
| HalfFloat.HalfToSingleExact | Vector/vector_display_utils.c:136-175 | hfloat_to_float is exact: a finite half and its single have equal magnitude |
| Tessellate.ReducedProperties | Vector/vector_display.c:215 | the first loop of normalizef takes whole turns off and ends at or below 2 pi + epsilon |
| Tessellate.RaisedProperties | Vector/vector_display.c:216 | the second loop adds whole turns and ends in [-epsilon, 2 pi + epsilon] |
| Tessellate.NormalizedProperties | Vector/vector_display.c:214-218 | normalizef lands in [-epsilon, 2 pi + epsilon] and changes its input by whole turns only |
| Tessellate.NormalizedIdempotent | Vector/vector_display.c:214-218 | normalizef leaves an angle in range unchanged, so applying it twice equals applying it once |
| Tessellate.InitialLines | Vector/vector_display.c:349-372 | the first loop of end_draw builds one line per consecutive pair of pending points |
| Tessellate.FirstLastSameMeans | Vector/vector_display.c:345-346 | first_last_same holds iff both differences between the first and last points lie strictly between -1 and 1 |
| Tessellate.TruncZero | Vector/vector_display.c:345-346 | abs of the truncated difference is below 0.1 iff the difference lies strictly between -1 and 1 |
| Tessellate.Connected | Vector/vector_display.c:374-433 | the second loop keeps one record per line |
| Tessellate.ConnectFlags | Vector/vector_display.c:378-418 | after one pass, has_prev is (not first, or first and first_last_same) and the joinable test at the previous joint; has_next is the same at the next joint; angle and first/last flags are unchanged |
| Tessellate.ConnectedAngle | Vector/vector_display.c:374-433 | connecting never changes a line's angle, so the neighbours' angles read by later passes are the original ones |
| Tessellate.FanSteps | Vector/vector_display.c:258 | nsteps = max(1, round(arc / (pi / 8))) is at least 1 |
| Tessellate.FanOf | Vector/vector_display.c:244-270 | draw_simple_fan always makes at least one step |
| Tessellate.RibbonTriangles | Vector/vector_display.c:299-304 | the body is the quadrilateral r0 r1 l1 l0 as the two triangles (r0, r1, l1) and (l0, r0, l1), which share the diagonal r0-l1; u is 1 on the right edge and 0 on the left, v stays 1/2 |
| Tessellate.StartCapTriangles | Vector/vector_display.c:316-323 | the start cap is the quadrilateral l0 lt0 rt0 r0 as the triangles (l0, lt0, r0) and (r0, lt0, rt0), which share lt0-r0; u keeps 0 left and 1 right, v goes from 1/2 at the line end to 1 at the outer edge |
| Tessellate.EndCapTriangles | Vector/vector_display.c:325-332 | the end cap is the quadrilateral lt1 l1 r1 rt1 as the triangles (lt1, l1, r1) and (lt1, r1, rt1), which share lt1-r1, with the start cap's texturing |
| Tessellate.FanTrianglesLength | Vector/vector_display.c:274-278 | k passes of the fan loop append 3k vertices |
| Tessellate.FanTriangleAt | Vector/vector_display.c:274-278 | triangle j of a fan is rim point j, the centre and rim point j + 1 |
| Tessellate.FanFacts | Vector/vector_display.c:244-279 | draw_simple_fan appends 3 * nsteps vertices (nsteps >= 1), made of consecutive rim points around the centre |
| Tessellate.FanAngleEnds | Vector/vector_display.c:260-261 | the fan angles run from the start angle to start + arc in nsteps equal steps |
| Tessellate.FanArcIsShorter | Vector/vector_display.c:247-270 | the fan takes the shorter way between pa and a, starts at the matching end, and uses radius t or -t |
| Tessellate.FanLength | Vector/vector_display.c:244-279 | the fan has 3 * nsteps vertices |
| Tessellate.SegmentCount | Vector/vector_display.c:285-333 | each line adds 6 body vertices, 6 for each unconnected end, and 3 * nsteps (nsteps >= 1) for a connected previous joint: at least 9 |
| Tessellate.LinesCount | Vector/vector_display.c:281-335 | draw_lines appends a multiple of 3 vertices, at least 3 triangles per line |
| Tessellate.TessellationTriangles | Vector/vector_display.c:337-441 | end_draw appends nothing for fewer than 2 points, and otherwise whole triangles, at least 3 per segment |
| Tessellate.PrevIndex | Vector/vector_display.c:375 | (nlines + i - 1) % nlines is the ring predecessor of i |
| Tessellate.NextIndex | Vector/vector_display.c:375 | (i + 1) % nlines is the ring successor of i |
| Tessellate.InitialFlags | Vector/vector_display.c:354-355 | only the first line is marked first and only the last one last |
| Tessellate.JoinsSymmetric | Vector/vector_display.c:378-418 | the later line's start test and the earlier line's end test are the same test on the same two normalised differences |
| Tessellate.RingJointsAgree | Vector/vector_display.c:374-418 | on a ring of lines, line i connects to its previous line iff that line connects to its next |
| Tessellate.JointsAgree | Vector/vector_display.c:374-418 | joint consistency: segment i has a connected previous joint iff segment i - 1 (mod nlines) has a connected next joint |
| Tessellate.RingWraparound | Vector/vector_display.c:374-418 | at the wraparound joint both flags equal first_last_same and the joinable test |
| Tessellate.WraparoundJoint | Vector/vector_display.c:345-418 | for the pending points, the wraparound joint connects iff first_last_same holds and the turn is joinable, and both sides agree |
| Tessellate.InitialGeometry | Vector/vector_display.c:368-371 | each end's left and right points are the endpoint plus and minus t * (sin a, -cos a): centred on it, and 2t apart when sin^2 + cos^2 = 1 |
| Tessellate.PrevJoinedGeometry | Vector/vector_display.c:384-400 | the has_prev block moves both start points by the same multiple of (cos a, sin a), only when the joint stays connected, and leaves the end points alone |
| Tessellate.NextJoinedGeometry | Vector/vector_display.c:402-418 | the has_next block moves both end points by the same multiple of (cos a, sin a), only when the joint stays connected |
| Tessellate.ConnectGeometry | Vector/vector_display.c:374-433 | after one pass, each end's points have moved together along (cos a, sin a); an unconnected end keeps its points and gets cap corners t further out |
| Tessellate.FanTextured | Vector/vector_display.c:274-277 | fan vertices have depth 10000, the current colour, u in {0, 1} and v in {1/2, 1} |
| Tessellate.JointFanTextured | Vector/vector_display.c:288-296 | the same holds for a joint fan |
| Tessellate.PartsTextured | Vector/vector_display.c:299-332 | body and cap vertices have depth 10000, the current colour, u in {0, 1} and v in {1/2, 1} |
| Tessellate.SegmentTextured | Vector/vector_display.c:285-333 | so does every vertex one line appends |
| Tessellate.LinesTextured | Vector/vector_display.c:281-335 | so does every vertex draw_lines appends |
| Tessellate.TessellationTextured | Vector/vector_display.c:337-441 | so does every vertex end_draw appends |
| VectorDisplay.Normalizef | Vector/vector_display.c:214-218 | the two loops of normalizef return Normalized(a), in [-epsilon, 2 pi + epsilon] |
| VectorDisplay.Shorten | Vector/vector_display.c:388-396 | u is t * sin(d/2) / cos(d/2) for the smaller normalised difference d |
| VectorDisplay.JoinPrevious | Vector/vector_display.c:384-400 | the has_prev block computes PrevJoined: shorten the start when joinable, else clear has_prev |
| VectorDisplay.JoinNext | Vector/vector_display.c:402-418 | the has_next block computes NextJoined |
| VectorDisplay.Connect | Vector/vector_display.c:378-432 | one pass of the second loop computes ConnectLine: flags, angle differences, joints and caps |
| VectorDisplay.RingNeighbours | Vector/vector_display.c:375 | the modular indices are the ring predecessor and successor |
| VectorDisplay.BuildLines | Vector/vector_display.c:349-372 | the first loop fills a fresh array with InitialLines of the pending points |
| VectorDisplay.JoinedLines | Vector/vector_display.c:343-433 | the first two loops leave the connected lines of the pending points |
| VectorDisplay.ConnectLines | Vector/vector_display.c:374-433 | the second loop, in place, leaves Connected of the lines it started with |
| VectorDisplay.ConnectAt | Vector/vector_display.c:375-432 | pass i connects line i from its neighbours' unchanged angles; lines before i stay connected and lines after i untouched |
| VectorDisplay.FanAngles | Vector/vector_display.c:259-261 | angles[i] = start + i * arc / nsteps for i = 0..nsteps |
| VectorDisplay.FrameAlpha | Vector/vector_display.c:809-816 | the alpha is 1 at age 0, initial_decay at age 1, decay^(age-1) * initial_decay after that |
| VectorDisplay.SlotAge | Vector/vector_display.c:801-803 | the slot drawn at a given age has that age, and the slot of age 0 is the newest one |
| VectorDisplay.AgeSlot | Vector/vector_display.c:801-803 | every slot is the one drawn at its own age |
| VectorDisplay.FramesSlots | Vector/vector_display.c:800-828 | the loop draws only slots that hold vertices, with the alpha of their age and their stored count |
| VectorDisplay.FramesOldestFirst | Vector/vector_display.c:800-828 | the loop draws the oldest frame first: ages strictly decrease |
| VectorDisplay.FramesComplete | Vector/vector_display.c:800-828 | the first k passes draw every non-empty slot of age n - 1 down to n - k |
| VectorDisplay.UpdateDrawsEverySlotOnce | Vector/vector_display.c:791-828 | update draws exactly the non-empty slots, each once, with its own count and the alpha of its age; the newest slot, if non-empty, is drawn last with alpha 1 |
| VectorDisplay.AlphaNonIncreasing | Vector/vector_display.c:809-816 | with decay and initial_decay in [0, 1), the alpha of age k + 1 is at most that of age k, and both lie in [0, 1] |
| VectorDisplay.AlphaMonotone | Vector/vector_display.c:809-816 | an older frame never gets a larger alpha |
| VectorDisplay.UpdateAlphasRise | Vector/vector_display.c:800-828 | the alphas of update's draws rise from first to last, inside [0, 1] |
| VectorDisplay.DefaultAlphas | Vector/vector_display.c:809-816 | the default settings give ages 0-4 the alphas 1, 0.04, 0.032, 0.0256, 0.02048 |
| VectorDisplay.DrawFrames | Vector/vector_display.c:799-828 | the drawing loop of update returns Frames of the slot counts |
| VectorDisplay.Display.constructor | Vector/vector_display.c:110-133 | a new display has 5 empty slots, capacity 60 for both buffers, decay 0.8, initial decay 0.04, thickness 8, white, glow size a third of the size |
| VectorDisplay.Display.SetInitialDecay | Vector/vector_display.c:135-139 | accepts [0, 1) and stores it; otherwise returns -1 and changes nothing |
| VectorDisplay.Display.SetThickness | Vector/vector_display.c:141-145 | accepts t > 0 and stores it; otherwise returns -1 and changes nothing |
| VectorDisplay.Display.SetDecay | Vector/vector_display.c:467-471 | accepts [0, 1) and stores it; otherwise returns -1 and changes nothing |
| VectorDisplay.Display.SetColor | Vector/vector_display.c:152-157 | sets r, g, b and leaves alpha and everything else alone |
| VectorDisplay.Display.Clear | Vector/vector_display.c:147-150 | only zeroes the vertex count |
| VectorDisplay.Display.SetSteps | Vector/vector_display.c:450-465 | accepts 0..60: steps = n, step = 0, fresh slots all empty; otherwise returns -1 and changes nothing |
| VectorDisplay.Display.EnsurePoints | Vector/vector_display.c:169-177 | doubles the capacity once when it is below need, keeping the vertices; otherwise changes nothing |
| VectorDisplay.Display.EnsurePendingPoints | Vector/vector_display.c:159-167 | doubles the pending capacity once when it is below need and keeps the count; says nothing about the copied points |
| VectorDisplay.Display.AppendTexpoint | Vector/vector_display.c:179-192 | appends exactly one vertex (z 10000, current colour, u/128, 1 - v/128), keeps the earlier ones, and doubles the capacity when it was full |
| VectorDisplay.Display.AppendTriangle | Vector/vector_display.c:274-277 | three append_texpoint calls append the three vertices in order |
| VectorDisplay.Display.BeginDraw | Vector/vector_display.c:194-204 | with no polyline open (the abort otherwise), the pending points become the one point |
| VectorDisplay.Display.DrawTo | Vector/vector_display.c:206-212 | appends one pending point; earlier points are kept while the buffer does not grow |
| VectorDisplay.Display.DrawFanTriangles | Vector/vector_display.c:274-278 | the triangle loop appends FanTriangles for all nsteps |
| VectorDisplay.Display.DrawFanTriangle | Vector/vector_display.c:275-277 | one pass appends triangle i |
| VectorDisplay.Display.DrawSimpleFan | Vector/vector_display.c:244-279 | appends FanVertices(cx, cy, pa, a, t) |
| VectorDisplay.Display.DrawRibbon | Vector/vector_display.c:299-304 | appends the body's six vertices |
| VectorDisplay.Display.DrawStartCap | Vector/vector_display.c:316-323 | appends the start cap's six vertices |
| VectorDisplay.Display.DrawEndCap | Vector/vector_display.c:325-332 | appends the end cap's six vertices |
| VectorDisplay.Display.DrawJoint | Vector/vector_display.c:288-296 | appends the joint fan around r0 or l0, at twice the thickness, iff has_prev |
| VectorDisplay.Display.DrawSegment | Vector/vector_display.c:286-333 | one pass of draw_lines appends SegmentVertices |
| VectorDisplay.Display.DrawLines | Vector/vector_display.c:281-335 | draw_lines appends LinesVertices of all lines |
| VectorDisplay.Display.DrawLinesPass | Vector/vector_display.c:285-333 | pass i extends the vertices of the first i lines to the first i + 1 |
| VectorDisplay.Display.TessellatePending | Vector/vector_display.c:343-436 | for two or more pending points, appends Tessellation of them |
| VectorDisplay.Display.EndDraw | Vector/vector_display.c:337-441 | appends Tessellation of the pending points (nothing for fewer than 2) and always leaves the pending count 0 |
| VectorDisplay.Display.Draw | Vector/vector_display.c:443-448 | begin, draw_to and end: appends the tessellation of the two-point polyline |
| VectorDisplay.Display.Update | Vector/vector_display.c:791-828 | step becomes (step + 1) mod steps; that slot gets the current vertices and count, the other slots are unchanged; the draws are Frames of the counts |
| Shapes.OpenPolyline | Vector/vector_shapes.c:106-115 | draw_to calls and end_draw close an open polyline with one end_draw |
| Shapes.PolylineBracketed | Vector/vector_shapes.c:103-115 | drawing one polyline opens and closes it with exactly one end_draw |
| Shapes.CommandsBracketed | Vector/vector_shapes.c:9-11 | drawing polylines in sequence alternates begin_draw and end_draw strictly, one end_draw per polyline, so the nested-begin abort never fires |
| Shapes.RimPoints | Vector/vector_shapes.c:44-51 | the rim starts at the wheel's angle and gains one point per pass |
| Shapes.HelperShapes | Vector/vector_shapes.c:6-86 | draw_line is one two-point polyline (begin, draw_to, end); draw_box is one closed five-point polyline; draw_wheel is four two-point spokes and a nine-point rim; all are bracketed |
| Shapes.BoxIsClosed | Vector/vector_shapes.c:79-83 | the box's first and last points pass first_last_same |
| Shapes.DrawLine | Vector/vector_shapes.c:6-13 | issues begin(x0, y0), draw_to(x1, y1), end, and appends that line's tessellation |
| Shapes.TraceBox | Vector/vector_shapes.c:79-83 | the pending points are the five box corners, back to (x, y) |
| Shapes.DrawBox | Vector/vector_shapes.c:76-86 | issues the box's calls and appends its tessellation |
| Shapes.TraceRim | Vector/vector_shapes.c:41-51 | begin at the wheel's angle, then 8 draw_to calls 45 degrees apart |
| Shapes.RimLoopBound | Vector/vector_shapes.c:47 | edgeangle < 2 pi - 0.001 holds for k * 45 degrees exactly when k < 8 |
| Shapes.DrawRimPoint | Vector/vector_shapes.c:47-51 | one pass draws to the next rim point and adds 45 degrees |
| Shapes.NextRimPoint | Vector/vector_shapes.c:48-50 | the point drawn to extends the rim by one |
| Shapes.SpokeEnds | Vector/vector_shapes.c:20-24 | the spoke ends are the centre plus and minus sr * (sin th, -cos th) |
| Shapes.DrawSpoke | Vector/vector_shapes.c:20-24 | issues the spoke's polyline calls |
| Shapes.DrawSpokes | Vector/vector_shapes.c:18-39 | four spokes 45 degrees apart, of half-length radius - 2 |
| Shapes.DrawRim | Vector/vector_shapes.c:41-52 | issues the rim polyline's calls |
| Shapes.DrawWheel | Vector/vector_shapes.c:15-54 | issues the calls of four spokes, then the rim |
| Shapes.WheelCommands | Vector/vector_shapes.c:18-52 | spoke calls, then rim calls, are the wheel's calls |
| Shapes.RecordPoints | Vector/vector_shapes.c:99-114 | the n stored pairs of a record give a polyline of n placed points |
| Shapes.ShapePolylines | Vector/vector_shapes.c:94-117 | the decoded polylines each have at least one point, a record with count 0 or below included |
| Shapes.ShapeStep | Vector/vector_shapes.c:96-117 | a record with count vcnt advances the index by 1 + 2 * max(vcnt, 1), lowers total by vcnt, and adds its polyline to those drawn |
| Shapes.DrawShape | Vector/vector_shapes.c:88-119 | issues the calls of the decoded polylines, each point scaled by (sx, sy), rotated by (cos angle, sin angle) and moved to (x, y) |
| Shapes.DrawShapeRecord | Vector/vector_shapes.c:96-117 | one pass of the outer loop draws one record, moves the index forward inside the data, takes the count off the total, and keeps the decoding invariant |
| Shapes.DrawRecord | Vector/vector_shapes.c:97-115 | one record: begin at the first placed point, draw to each further one while j < n, end; it draws max(n, 1) points and the index ends 2 * max(n, 1) further on |
| Shapes.DrawRecordPoint | Vector/vector_shapes.c:106-113 | one inner pass draws to placed point j |
| Shapes.PlacedPoint | Vector/vector_shapes.c:99-102 | the point is (px*sx*cs - py*sy*sn + x, px*sx*sn + py*sy*cs + y) |
| Shapes.TransformIdentity | Vector/vector_shapes.c:99-102 | scale 1, angle 0 and offset 0 leave a point unchanged |
| Shapes.RecordPointsAsIs | Vector/vector_shapes.c:99-114 | at the identity placement a group's points are its stored pairs |
| Shapes.RecordsDecodable | Vector/vector_shapes.c:94-117 | stored groups of at least one point decode for their total count |
| Shapes.RecordsDecode | Vector/vector_shapes.c:94-117 | stored groups decode back to their polylines |
| Shapes.ShapeRoundTrip | Vector/vector_shapes.c:88-119 | the data encoding any polylines is a shape, and draw_shape at the identity placement draws exactly those polylines |
| Shapes.ShapeCovers | Vector/vector_shapes.c:96-117 | the decoded polylines hold at least total points |
| Shapes.ZeroCountRecord | Vector/vector_shapes.c:94-117 | [1, 0, 5, 5, 1, 7, 7] is a shape: the count-0 record draws one point without lowering the total, and the next record ends the loop |
| Shapes.ZeroCountAsIs | Vector/vector_shapes.c:94-117 | at the identity placement that data draws the point (5, 5), then the point (7, 7) |
| Shapes.ShapeCalls | Vector/vector_shapes.c:88-119 | draw_shape's calls alternate begin_draw and end_draw strictly, one end_draw per polyline |

## Left out

- OpenGL: shaders, framebuffers, the blur passes, matrices, buffer uploads and draw calls in `vector_display_setup`, `vector_display_update` and `vector_display_set_steps`. An upload is modelled as storing the vertices in the slot, and a draw as a `DrawCall` value.
- `gen_linetex`, `vector_display_teardown` and `vector_display_delete`: texture contents, GL deletes and `free`.
- The numeric values of atan2, sin, cos, sqrt and round: they are the fields of a `Libm` value passed in. The `pow` of the alpha is written out as a repeated product.
- Float rounding: every double and float is a real.
- `vector_shape_draw_circle`: its pass count depends on how floating-point `edgeangle` accumulates.
- Logging, the shader helpers of `vector_display_utils.c`, the font and the demo programs.
- Allocation failure: `calloc` and `alloca` are assumed to succeed.
- `normalize` (the double version): nothing calls it.
- The `#else` branch of draw_lines: it is compiled out.
- VectorDisplay.Display.EnsurePendingPoints: the contract does not state the contents of the grown buffer. The source copies from the vertex buffer instead of the pending buffer, so the points it copies are not modelled. DrawTo accordingly promises to keep earlier points only while no growth happens.
- VectorDisplay.Display.BeginDraw: the abort on an open polyline is a precondition.
- VectorDisplay.Display.Update: requires steps > 0. `set_steps` accepts 0, and the source's `% self->steps` is then undefined.
- HalfFloat.ShiftRight: a C shift by 32 or more is undefined; the model gives 0.
- Tessellate.FirstLastSame and Shapes.Count: C's conversions of a double to int are modelled by truncation with no int range. A value outside the int range, for which the conversion is undefined, and the overflow of `abs(INT_MIN)` are not modelled.
- Shapes.DrawShape: requires that every read the loop makes lies inside the array (IsShape). The loop ends once the counts it has read reach the total. A record with count 0 or below still draws its first point and does not lower the total; the model draws it so. Data whose loop would read past the end is undefined in C and is excluded.
- Shapes.DrawShape: cos(angle) and sin(angle) come from the `Libm` value. The begin/draw_to/end return codes, always 0, are not checked.
- Shapes.DrawShape: states the calls but not the vertices; those follow from EndDraw one polyline at a time. DrawLine and DrawBox state both.
- Shapes.DrawWheel: states the calls but not the vertices, for the same reason.

## Findings

| source | as written | input that shows it | evidently intended | confidence | as-written member | corrected member |
|---|---|---|---|---|---|---|
| Vector/vector_display_utils.c:121-126 | on the subnormal path, float_to_hfloat shifts only the 23-bit mantissa field, dropping the implicit leading 1 of a normal single | half 0x0001: hfloat_to_float gives single 0x33800000, and float_to_hfloat turns that into 0x0000 | shift the significand with its leading 1 (for exponent > 0), so subnormal halves survive the round trip | not executed | HalfFloat.RoundTripLosesSubnormals | HalfFloat.RoundTripCorrected |
