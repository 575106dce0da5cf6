/** Actuator operations for a fixed wing with a line source
    (amr_wind::actuator::ops specialised for WingType and ActSrcLine).

    The floating-point geometry (normalisation, magnitude, atan2, degree/radian
    conversion), the airfoil polar lookup, the motion law, the position refresh and
    the filtered lifting-line correction (FLLC) are collaborators whose bodies lie
    outside this model; they enter as the function-valued fields of `Env`, so the
    model states the loop and branch structure around them.
 */
module WingOps {
  import opened Vectors
  import Interp

  datatype Option<T> = None | Some(value: T)

  /** Orientation tensor of an actuator point, by rows. */
  datatype Tensor = Tensor(r0: Vec, r1: Vec, r2: Vec)

  /** Actuator point grid: parallel per-point arrays. */
  datatype ActGrid = ActGrid(
    pos: seq<Vec>,
    vel_pos: seq<Vec>,
    vel: seq<Vec>,
    force: seq<Vec>,
    epsilon: seq<Vec>,
    orientation: seq<Tensor>)

  /** The first num_pts entries of the point arrays, as handed to the FLLC. */
  datatype ComponentView = ComponentView(
    pos: seq<Vec>,
    vel_pos: seq<Vec>,
    force: seq<Vec>,
    epsilon: seq<Vec>,
    orientation: seq<Tensor>,
    chord: seq<real>,
    vel_rel: seq<Vec>,
    vel: seq<Vec>)

  /** The part of the FLLC state that the wing operations read. */
  datatype FllcState = FllcState(initialized: bool, fllc_start_time: real)

  /** Per-wing metadata (WingBaseData): geometry, motion, pitch control, per-point
      outputs, totals and the optional FLLC. `pitch_timetable` is the configured
      schedule name whose emptiness selects the schedule; `time_table` and
      `pitch_table` are the schedule itself. */
  datatype WingMeta = WingMeta(
    num_pts: nat,
    start: Vec,
    end: Vec,
    blade_x: Vec,
    dx: seq<real>,
    chord: seq<real>,
    motion_type: string,
    s_period: real,
    s_vector: Vec,
    vel_tr: Vec,
    pitch: real,
    pitch_timetable: string,
    time_table: seq<real>,
    pitch_table: seq<real>,
    vel_rel: seq<Vec>,
    aoa: seq<real>,
    cl: seq<real>,
    cd: seq<real>,
    lift: real,
    drag: real,
    epsilon_chord: Vec,
    fllc: Option<FllcState>,
    component_view: ComponentView)

  /** Arguments of new_wing_position_velocity besides the points and the velocity. */
  datatype MotionArgs = MotionArgs(
    npts: nat, tn: real, tnp1: real, motion: string, period: real, svec: Vec)

  /** Collaborators whose bodies are outside the model. */
  datatype Env = Env(
    unit: Vec -> Vec,
    mag: Vec -> real,
    atan2: (real, real) -> real,
    radians: real -> real,
    degrees: real -> real,
    aflookup: real -> (real, real),
    refresh: (seq<Vec>, seq<Vec>, nat) -> seq<Vec>,
    advance: (seq<Vec>, Vec, MotionArgs) -> (seq<Vec>, Vec),
    fllcOp: (ComponentView, FllcState) -> (ComponentView, FllcState),
    fllcInit: (FllcState, ComponentView, real) -> FllcState)

  // ---------------------------------------------------------------------------
  // Views

  /** utils::slice: the `count` entries of `s` starting at `start`. */
  function Slice<T>(s: seq<T>, start: nat, count: nat): (r: seq<T>)
    requires start + count <= |s|
    ensures |r| == count
    ensures forall i :: 0 <= i < count ==> r[i] == s[start + i]
  {
    s[start..start + count]
  }

  /** Every array a component view slices holds at least num_pts entries. */
  predicate ViewFits(grid: ActGrid, w: WingMeta) {
    && w.num_pts <= |grid.pos|
    && w.num_pts <= |grid.vel_pos|
    && w.num_pts <= |grid.force|
    && w.num_pts <= |grid.epsilon|
    && w.num_pts <= |grid.orientation|
    && w.num_pts <= |w.chord|
    && w.num_pts <= |w.vel_rel|
    && w.num_pts <= |grid.vel|
  }

  /** make_component_view: all eight fields cut to the points [0, num_pts). */
  function MakeComponentView(grid: ActGrid, w: WingMeta): (v: ComponentView)
    requires ViewFits(grid, w)
    ensures |v.pos| == |v.vel_pos| == |v.force| == |v.epsilon| == w.num_pts
    ensures |v.orientation| == |v.chord| == |v.vel_rel| == |v.vel| == w.num_pts
    ensures forall i :: 0 <= i < w.num_pts ==>
              && v.pos[i] == grid.pos[i]
              && v.vel_pos[i] == grid.vel_pos[i]
              && v.force[i] == grid.force[i]
              && v.epsilon[i] == grid.epsilon[i]
              && v.orientation[i] == grid.orientation[i]
              && v.chord[i] == w.chord[i]
              && v.vel_rel[i] == w.vel_rel[i]
              && v.vel[i] == grid.vel[i]
  {
    ComponentView(
      Slice(grid.pos, 0, w.num_pts),
      Slice(grid.vel_pos, 0, w.num_pts),
      Slice(grid.force, 0, w.num_pts),
      Slice(grid.epsilon, 0, w.num_pts),
      Slice(grid.orientation, 0, w.num_pts),
      Slice(w.chord, 0, w.num_pts),
      Slice(w.vel_rel, 0, w.num_pts),
      Slice(grid.vel, 0, w.num_pts))
  }

  // ---------------------------------------------------------------------------
  // Position and velocity updates

  /** UpdatePosOp: the velocity-sampling points are refreshed from the force points;
      nothing else in the grid changes. */
  function UpdatePos(grid: ActGrid, w: WingMeta, env: Env): (g: ActGrid)
    ensures g.vel_pos == env.refresh(grid.vel_pos, grid.pos, w.num_pts)
    ensures g.pos == grid.pos && g.vel == grid.vel && g.force == grid.force
    ensures g.epsilon == grid.epsilon && g.orientation == grid.orientation
  {
    grid.(vel_pos := env.refresh(grid.vel_pos, grid.pos, w.num_pts))
  }

  /** UpdateVelOp: the FLLC correction runs on the component view exactly when the
      wing has an FLLC; otherwise the metadata is untouched. */
  function UpdateVel(w: WingMeta, env: Env): (w': WingMeta)
    ensures w.fllc.None? ==> w' == w
    ensures w.fllc.Some? <==> w'.fllc.Some?
    ensures w.fllc.Some? ==>
              (w'.component_view, w'.fllc.value) == env.fllcOp(w.component_view, w.fllc.value)
    ensures w' == w.(component_view := w'.component_view, fllc := w'.fllc)
  {
    match w.fllc
    case None => w
    case Some(f) =>
      var (view, f') := env.fllcOp(w.component_view, f);
      w.(component_view := view, fllc := Some(f'))
  }

  // ---------------------------------------------------------------------------
  // Force on one section

  /** Local frame: span direction `blade_y`, and the reference chordwise direction made
      orthogonal to it through two cross products. */
  datatype Frame = Frame(blade_x: Vec, blade_y: Vec, blade_z: Vec)

  function BladeFrame(w: WingMeta, env: Env): Frame {
    var wspan := Sub(w.end, w.start);
    var x0 := env.unit(w.blade_x);
    var y := env.unit(wspan);
    var z := env.unit(Cross(x0, y));
    Frame(env.unit(Cross(y, z)), y, z)
  }

  /** The pitch schedule is readable when it is selected. */
  predicate PitchTablesUsable(w: WingMeta) {
    |w.pitch_timetable| > 0 ==> |w.pitch_table| >= |w.time_table| && |w.pitch_table| >= 1
  }

  /** The pitch added to the inflow angle: the schedule interpolated at time t when
      a schedule is configured, the static pitch in radians otherwise. Before the
      schedule starts the first pitch is held, after it ends the last. */
  function PitchOffset(w: WingMeta, t: real, env: Env): (p: real)
    requires PitchTablesUsable(w)
    ensures |w.pitch_timetable| > 0 ==> p == Interp.Linear(w.time_table, w.pitch_table, t)
    ensures |w.pitch_timetable| == 0 ==> p == env.radians(w.pitch)
    ensures |w.pitch_timetable| > 0 && (|w.time_table| < 2 || t < w.time_table[0]) ==>
              p == w.pitch_table[0]
    ensures (|w.pitch_timetable| > 0 && |w.time_table| >= 2 && w.time_table[0] <= t &&
             w.time_table[|w.time_table| - 1] < t) ==> p == w.pitch_table[|w.time_table| - 1]
  {
    if |w.pitch_timetable| > 0 then Interp.Linear(w.time_table, w.pitch_table, t)
    else env.radians(w.pitch)
  }

  /** The scalar loads one pass of the force loop computes for one point. */
  datatype Section = Section(
    wind: Vec, vmag: real, aoa: real, cl: real, cd: real,
    qval: real, lift: real, drag: real)

  /** The section loads at point ip with sampled velocity `vel`: the relative wind
      is the wind relative to the wing's motion seen in the chordwise plane, with no
      spanwise component; the angle of attack adds the pitch offset to its inflow
      angle; lift and drag share one dynamic pressure, so their ratio is Cl/Cd. */
  function SectionLoads(w: WingMeta, vel: Vec, ip: nat, t: real, env: Env): (s: Section)
    requires ip < |w.chord| && ip < |w.dx| && PitchTablesUsable(w)
    ensures s.wind.y == 0.0
    ensures s.wind.x == Dot(Sub(vel, w.vel_tr), BladeFrame(w, env).blade_x)
    ensures s.wind.z == Dot(Sub(vel, w.vel_tr), BladeFrame(w, env).blade_z)
    ensures s.vmag == env.mag(s.wind)
    ensures s.aoa == env.atan2(s.wind.z, s.wind.x) + PitchOffset(w, t, env)
    ensures (s.cl, s.cd) == env.aflookup(s.aoa)
    ensures s.qval == DynamicPressure(s.vmag, w.chord[ip], w.dx[ip])
    ensures s.lift == s.qval * s.cl && s.drag == s.qval * s.cd
    ensures s.lift * s.cd == s.drag * s.cl
  {
    LoadsInWind(w, RelativeWind(w, vel, env), ip, t, env)
  }

  /** The relative wind at a section: `vel - vel_tr` projected on the chordwise and
      normal axes of the local frame. */
  function RelativeWind(w: WingMeta, vel: Vec, env: Env): Vec {
    var f := BladeFrame(w, env);
    var rel := Sub(vel, w.vel_tr);
    Vec(Dot(rel, f.blade_x), 0.0, Dot(rel, f.blade_z))
  }

  /** The section loads once the relative wind is known. */
  function LoadsInWind(w: WingMeta, wind: Vec, ip: nat, t: real, env: Env): (s: Section)
    requires ip < |w.chord| && ip < |w.dx| && PitchTablesUsable(w)
    ensures s.wind == wind
    ensures s.lift == s.qval * s.cl && s.drag == s.qval * s.cd
    ensures s.lift * s.cd == s.drag * s.cl
  {
    var vmag := env.mag(wind);
    var aoa := env.atan2(wind.z, wind.x) + PitchOffset(w, t, env);
    var polar := env.aflookup(aoa);
    var cl := polar.0;
    var cd := polar.1;
    var qval := DynamicPressure(vmag, w.chord[ip], w.dx[ip]);
    var lift := qval * cl;
    var drag := qval * cd;
    assert lift * cd == drag * cl by {
      assert lift * cd == qval * (cl * cd) && drag * cl == qval * (cd * cl);
    }
    Section(wind, vmag, aoa, cl, cd, qval, lift, drag)
  }

  /** Dynamic pressure times the section area, `0.5 * vmag^2 * chord * dx`: never
      negative on a section of non-negative area, whatever the speed's sign. */
  function DynamicPressure(vmag: real, chord: real, dx: real): (q: real)
    ensures 0.0 <= chord * dx ==> 0.0 <= q
    ensures vmag == 0.0 || chord * dx == 0.0 ==> q == 0.0
  {
    var v2 := vmag * vmag;
    assert 0.0 <= v2;
    0.5 * v2 * (chord * dx)
  }

  /** Directions of drag and lift at a section and the force it puts on the fluid. */
  datatype Reaction = Reaction(dragDir: Vec, liftDir: Vec, force: Vec)

  /** Drag acts along the relative wind in the chordwise plane, lift across it and
      the span; the force on the fluid cancels the aerodynamic force exactly. */
  function SectionReaction(f: Frame, s: Section, env: Env): (r: Reaction)
    ensures Add(r.force, Add(Scale(r.liftDir, s.lift), Scale(r.dragDir, s.drag))) == Zero
  {
    var dragDir := env.unit(Add(Scale(f.blade_x, s.wind.x), Scale(f.blade_z, s.wind.z)));
    var liftDir := env.unit(Cross(dragDir, f.blade_y));
    Reaction(dragDir, liftDir, Neg(Add(Scale(liftDir, s.lift), Scale(dragDir, s.drag))))
  }

  /** With chordwise x and spanwise y, and a `unit` exact on the axes, the local
      frame is the coordinate frame. */
  lemma AxisFrame(w: WingMeta, env: Env)
    requires w.blade_x == Vec(1.0, 0.0, 0.0) && Sub(w.end, w.start) == Vec(0.0, 1.0, 0.0)
    requires env.unit(Vec(1.0, 0.0, 0.0)) == Vec(1.0, 0.0, 0.0)
    requires env.unit(Vec(0.0, 1.0, 0.0)) == Vec(0.0, 1.0, 0.0)
    requires env.unit(Vec(0.0, 0.0, 1.0)) == Vec(0.0, 0.0, 1.0)
    ensures BladeFrame(w, env) == Frame(Vec(1.0, 0.0, 0.0), Vec(0.0, 1.0, 0.0), Vec(0.0, 0.0, 1.0))
  {
    var y := env.unit(Sub(w.end, w.start));
    assert y == Vec(0.0, 1.0, 0.0);
    var zDir := Cross(env.unit(w.blade_x), y);
    assert zDir.x == 0.0 && zDir.y == 0.0 && zDir.z == 1.0;
    assert zDir == Vec(0.0, 0.0, 1.0);
    var z := env.unit(zDir);
    var xDir := Cross(y, z);
    assert xDir.x == 1.0 && xDir.y == 0.0 && xDir.z == 0.0;
    assert xDir == Vec(1.0, 0.0, 0.0);
  }

  /** The worked example: chordwise x, spanwise y, a wing at rest with no pitch,
      chord 2 and width 0.5 at point ip, a polar giving Cl = 0.5, Cd = 0.05 at zero
      incidence, and the opaque operations exact at the points a 10 m/s wind along x
      reaches. */
  ghost predicate ExampleSetup(w: WingMeta, ip: nat, env: Env) {
    && ip < |w.chord| && ip < |w.dx| && w.chord[ip] == 2.0 && w.dx[ip] == 0.5
    && w.blade_x == Vec(1.0, 0.0, 0.0) && Sub(w.end, w.start) == Vec(0.0, 1.0, 0.0)
    && w.vel_tr == Zero && |w.pitch_timetable| == 0 && w.pitch == 0.0
    && env.unit(Vec(1.0, 0.0, 0.0)) == Vec(1.0, 0.0, 0.0)
    && env.unit(Vec(0.0, 1.0, 0.0)) == Vec(0.0, 1.0, 0.0)
    && env.unit(Vec(0.0, 0.0, 1.0)) == Vec(0.0, 0.0, 1.0)
    && env.unit(Vec(10.0, 0.0, 0.0)) == Vec(1.0, 0.0, 0.0)
    && env.mag(Vec(10.0, 0.0, 0.0)) == 10.0
    && env.atan2(0.0, 10.0) == 0.0 && env.radians(0.0) == 0.0
    && env.aflookup(0.0) == (0.5, 0.05)
  }

  /** In the worked example the relative wind is the free stream itself. */
  lemma ExampleWind(w: WingMeta, env: Env)
    requires w.blade_x == Vec(1.0, 0.0, 0.0) && Sub(w.end, w.start) == Vec(0.0, 1.0, 0.0)
    requires w.vel_tr == Zero
    requires env.unit(Vec(1.0, 0.0, 0.0)) == Vec(1.0, 0.0, 0.0)
    requires env.unit(Vec(0.0, 1.0, 0.0)) == Vec(0.0, 1.0, 0.0)
    requires env.unit(Vec(0.0, 0.0, 1.0)) == Vec(0.0, 0.0, 1.0)
    ensures RelativeWind(w, Vec(10.0, 0.0, 0.0), env) == Vec(10.0, 0.0, 0.0)
  {
    AxisFrame(w, env);
    WindInFrame(w, Vec(10.0, 0.0, 0.0), env, Frame(Vec(1.0, 0.0, 0.0), Vec(0.0, 1.0, 0.0), Vec(0.0, 0.0, 1.0)));
    assert Sub(Vec(10.0, 0.0, 0.0), Zero) == Vec(10.0, 0.0, 0.0);
    DotWithAxes(Vec(10.0, 0.0, 0.0));
  }

  /** The relative wind in terms of a known local frame. */
  lemma WindInFrame(w: WingMeta, vel: Vec, env: Env, f: Frame)
    requires BladeFrame(w, env) == f
    ensures RelativeWind(w, vel, env) ==
              Vec(Dot(Sub(vel, w.vel_tr), f.blade_x), 0.0, Dot(Sub(vel, w.vel_tr), f.blade_z))
  {
  }

  /** Projections on the x and z axes pick out those components. */
  lemma DotWithAxes(a: Vec)
    ensures Dot(a, Vec(1.0, 0.0, 0.0)) == a.x && Dot(a, Vec(0.0, 0.0, 1.0)) == a.z
  {
  }

  /** In the worked example the wind is seen head-on at zero incidence. */
  lemma ExampleInflow(w: WingMeta, ip: nat, t: real, env: Env)
    requires ExampleSetup(w, ip, env)
    ensures var s := SectionLoads(w, Vec(10.0, 0.0, 0.0), ip, t, env);
      && s.wind == Vec(10.0, 0.0, 0.0) && s.vmag == 10.0 && s.aoa == 0.0
      && s.cl == 0.5 && s.cd == 0.05
  {
    ExampleWind(w, env);
  }

  /** In the worked example the dynamic pressure times the area is 50, so lift is
      25 and drag 2.5. */
  lemma ExampleLoads(w: WingMeta, ip: nat, t: real, env: Env)
    requires ExampleSetup(w, ip, env)
    ensures var s := SectionLoads(w, Vec(10.0, 0.0, 0.0), ip, t, env);
      s.qval == 50.0 && s.lift == 25.0 && s.drag == 2.5
  {
    ExampleWind(w, env);
    SectionInWind(w, Vec(10.0, 0.0, 0.0), ip, t, env, Vec(10.0, 0.0, 0.0));
    assert PitchOffset(w, t, env) == 0.0;
    LoadsAtTen(w, ip, t, env);
  }

  /** The loads of a 10 m/s head-on wind on a section of chord 2 and width 0.5
      whose polar gives Cl = 0.5, Cd = 0.05 at that incidence. */
  lemma LoadsAtTen(w: WingMeta, ip: nat, t: real, env: Env)
    requires ip < |w.chord| && ip < |w.dx| && PitchTablesUsable(w)
    requires w.chord[ip] == 2.0 && w.dx[ip] == 0.5
    requires env.mag(Vec(10.0, 0.0, 0.0)) == 10.0
    requires env.aflookup(env.atan2(0.0, 10.0) + PitchOffset(w, t, env)) == (0.5, 0.05)
    ensures var s := LoadsInWind(w, Vec(10.0, 0.0, 0.0), ip, t, env);
      s.qval == 50.0 && s.lift == 25.0 && s.drag == 2.5
  {
    var s := LoadsInWind(w, Vec(10.0, 0.0, 0.0), ip, t, env);
    assert s.vmag == 10.0 && s.cl == 0.5 && s.cd == 0.05;
    assert s.qval == DynamicPressure(10.0, 2.0, 0.5) == 50.0;
    ProductOfKnown(s.qval, s.cl, 50.0, 0.5);
    ProductOfKnown(s.qval, s.cd, 50.0, 0.05);
  }

  /** A product of two factors with known values. */
  lemma ProductOfKnown(a: real, b: real, va: real, vb: real)
    requires a == va && b == vb
    ensures a * b == va * vb
  {
  }

  /** Once the relative wind is known, the section loads are those in that wind. */
  lemma SectionInWind(w: WingMeta, vel: Vec, ip: nat, t: real, env: Env, wind: Vec)
    requires ip < |w.chord| && ip < |w.dx| && PitchTablesUsable(w)
    requires RelativeWind(w, vel, env) == wind
    ensures SectionLoads(w, vel, ip, t, env) == LoadsInWind(w, wind, ip, t, env)
  {
  }

  /** In the worked example the force on the fluid points against the chordwise
      axis with the drag and against the normal axis with the lift: 2.5 upstream
      and 25 downward. */
  lemma ExampleReaction(w: WingMeta, ip: nat, t: real, env: Env)
    requires ExampleSetup(w, ip, env)
    ensures SectionReaction(BladeFrame(w, env), SectionLoads(w, Vec(10.0, 0.0, 0.0), ip, t, env), env).force
              == Vec(-2.5, 0.0, -25.0)
  {
    AxisFrame(w, env);
    ExampleInflow(w, ip, t, env);
    ExampleLoads(w, ip, t, env);
    var s := SectionLoads(w, Vec(10.0, 0.0, 0.0), ip, t, env);
    ReactionAtTen(BladeFrame(w, env), s, env);
  }

  /** In the coordinate frame, a 10 m/s wind along x drags along x and lifts along
      z, so the force on the fluid is `(-drag, 0, -lift)`. */
  lemma ReactionAtTen(f: Frame, s: Section, env: Env)
    requires f == Frame(Vec(1.0, 0.0, 0.0), Vec(0.0, 1.0, 0.0), Vec(0.0, 0.0, 1.0))
    requires s.wind.x == 10.0 && s.wind.z == 0.0
    requires env.unit(Vec(10.0, 0.0, 0.0)) == Vec(1.0, 0.0, 0.0)
    requires env.unit(Vec(0.0, 0.0, 1.0)) == Vec(0.0, 0.0, 1.0)
    ensures SectionReaction(f, s, env).force == Vec(-s.drag, 0.0, -s.lift)
  {
    DragArg(f, s.wind.x, s.wind.z);
    CrossXY();
    AxisReactionForce(s.lift, s.drag);
  }

  /** In the coordinate frame the drag direction's argument is the relative wind. */
  lemma DragArg(f: Frame, wx: real, wz: real)
    requires f.blade_x == Vec(1.0, 0.0, 0.0) && f.blade_z == Vec(0.0, 0.0, 1.0)
    ensures Add(Scale(f.blade_x, wx), Scale(f.blade_z, wz)) == Vec(wx, 0.0, wz)
  {
    ScaledAxes(wx);
    ScaledAxes(wz);
  }

  /** Scaling the x or z axis by c gives the vector with c in that component. */
  lemma ScaledAxes(c: real)
    ensures Scale(Vec(1.0, 0.0, 0.0), c) == Vec(c, 0.0, 0.0)
    ensures Scale(Vec(0.0, 0.0, 1.0), c) == Vec(0.0, 0.0, c)
  {
  }

  /** The x axis crossed with the y axis is the z axis. */
  lemma CrossXY()
    ensures Cross(Vec(1.0, 0.0, 0.0), Vec(0.0, 1.0, 0.0)) == Vec(0.0, 0.0, 1.0)
  {
    var c := Cross(Vec(1.0, 0.0, 0.0), Vec(0.0, 1.0, 0.0));
    assert c.x == 0.0 && c.y == 0.0 && c.z == 1.0;
  }

  /** Lift along z and drag along x push the fluid by `(-drag, 0, -lift)`. */
  lemma AxisReactionForce(lift: real, drag: real)
    ensures Neg(Add(Scale(Vec(0.0, 0.0, 1.0), lift), Scale(Vec(1.0, 0.0, 0.0), drag)))
              == Vec(-drag, 0.0, -lift)
  {
    var l := Scale(Vec(0.0, 0.0, 1.0), lift);
    var d := Scale(Vec(1.0, 0.0, 0.0), drag);
    assert l.x == 0.0 && l.y == 0.0 && l.z == lift;
    assert d.x == drag && d.y == 0.0 && d.z == 0.0;
  }

  // ---------------------------------------------------------------------------
  // Totals and the FLLC trigger

  datatype Totals = Totals(lift: real, drag: real)

  /** The sums of lift and drag over the points [0, n). */
  ghost function SumLoads(w: WingMeta, vel: seq<Vec>, n: nat, t: real, env: Env): Totals
    requires n <= |vel| && n <= |w.chord| && n <= |w.dx| && PitchTablesUsable(w)
  {
    if n == 0 then Totals(0.0, 0.0)
    else
      var p := SumLoads(w, vel, n - 1, t, env);
      var s := SectionLoads(w, vel[n - 1], n - 1, t, env);
      Totals(p.lift + s.lift, p.drag + s.drag)
  }

  /** The FLLC initialises on a step when it exists, is not yet initialised and
      the current time is past its start time. */
  predicate FllcFires(f: Option<FllcState>, t: real) {
    f.Some? && !f.value.initialized && t > f.value.fllc_start_time
  }

  /** One step of the FLLC state: initialised by `init` on a step where it fires,
      left as it is otherwise. */
  function FllcStep(f: Option<FllcState>, t: real, init: FllcState -> FllcState): Option<FllcState>
  {
    if FllcFires(f, t) then Some(init(f.value)) else f
  }

  /** The FLLC guard at the end of the force computation: when it fires the
      component view is rebuilt from the current grid and metadata and FLLCInit runs
      on it with the first chord-based smoothing radius; otherwise nothing changes. */
  function FllcGate(grid: ActGrid, w: WingMeta, t: real, env: Env): (w': WingMeta)
    requires FllcFires(w.fllc, t) ==> ViewFits(grid, w)
    ensures !FllcFires(w.fllc, t) ==> w' == w
    ensures FllcFires(w.fllc, t) ==>
              && w'.component_view == MakeComponentView(grid, w)
              && w'.fllc == Some(env.fllcInit(w.fllc.value, w'.component_view, w.epsilon_chord.x))
    ensures w' == w.(component_view := w'.component_view, fllc := w'.fllc)
  {
    var view := if FllcFires(w.fllc, t) then MakeComponentView(grid, w) else w.component_view;
    w.(component_view := view,
       fllc := FllcStep(w.fllc, t, s => env.fllcInit(s, view, w.epsilon_chord.x)))
  }

  /** What FLLCOp is taken to do to the state this code reads: it corrects the view
      and leaves the initialised flag and the start time alone. */
  ghost predicate FllcOpKeepsSchedule(env: Env) {
    forall v, s :: env.fllcOp(v, s).1.initialized == s.initialized &&
                   env.fllcOp(v, s).1.fllc_start_time == s.fllc_start_time
  }

  /** What FLLCInit is taken to do to the state this code reads: mark it initialised
      and keep its start time. */
  ghost predicate FllcInitMarks(env: Env) {
    forall s, v, e :: env.fllcInit(s, v, e).initialized &&
                      env.fllcInit(s, v, e).fllc_start_time == s.fllc_start_time
  }

  /** One time step as far as the FLLC goes: UpdateVelOp, then the guard closing
      ComputeForceOp on the step's grid. Only the view and the FLLC state change. */
  function FllcRound(grid: ActGrid, w: WingMeta, t: real, env: Env): (w': WingMeta)
    requires ViewFits(grid, w)
    ensures w' == w.(component_view := w'.component_view, fllc := w'.fllc)
    ensures w.fllc.Some? <==> w'.fllc.Some?
  {
    var w1 := UpdateVel(w, env);
    assert ViewFits(grid, w1);
    FllcGate(grid, w1, t, env)
  }

  /** A run of time steps as far as the FLLC goes: on step k UpdateVelOp runs, then
      the guard closing ComputeForceOp on that step's grid at time `times[k]`. The
      result says on which steps the guard fired. */
  function FllcRun(grids: seq<ActGrid>, w: WingMeta, times: seq<real>, env: Env): (fired: seq<bool>)
    requires |grids| == |times|
    requires forall g :: g in grids ==> ViewFits(g, w)
    ensures |fired| == |times|
    decreases |times|
  {
    if |times| == 0 then []
    else
      var w2 := FllcRound(grids[0], w, times[0], env);
      GridsStillFit(grids, w, w2);
      [FllcFires(UpdateVel(w, env).fllc, times[0])] + FllcRun(grids[1..], w2, times[1..], env)
  }

  /** The grids after the first of a run keep fitting a wing with the same points,
      chords and relative winds. */
  lemma GridsStillFit(grids: seq<ActGrid>, w: WingMeta, w': WingMeta)
    requires |grids| > 0 && forall g :: g in grids ==> ViewFits(g, w)
    requires w'.num_pts == w.num_pts && w'.chord == w.chord && w'.vel_rel == w.vel_rel
    ensures forall g :: g in grids[1..] ==> ViewFits(g, w')
  {
    forall g | g in grids[1..]
      ensures ViewFits(g, w')
    {
      assert g in grids;
    }
  }

  /** Step k + 1 of a run is step k of the run that starts after its first step. */
  lemma FllcRunTail(grids: seq<ActGrid>, w: WingMeta, times: seq<real>, env: Env, k: nat)
    requires |grids| == |times| && 0 < k < |times|
    requires forall g :: g in grids ==> ViewFits(g, w)
    requires forall g :: g in grids[1..] ==> ViewFits(g, FllcRound(grids[0], w, times[0], env))
    ensures var w2 := FllcRound(grids[0], w, times[0], env);
      FllcRun(grids, w, times, env)[k] == FllcRun(grids[1..], w2, times[1..], env)[k - 1]
  {
  }

  /** A wing without an FLLC never initialises one. */
  lemma {:induction false} FllcDisabledNeverFires(grids: seq<ActGrid>, w: WingMeta, times: seq<real>, env: Env)
    requires |grids| == |times| && w.fllc.None?
    requires forall g :: g in grids ==> ViewFits(g, w)
    ensures forall k :: 0 <= k < |times| ==> !FllcRun(grids, w, times, env)[k]
    decreases |times|
  {
    if |times| > 0 {
      var w2 := FllcRound(grids[0], w, times[0], env);
      assert w2 == w;
      GridsStillFit(grids, w, w2);
      FllcDisabledNeverFires(grids[1..], w2, times[1..], env);
      forall k | 0 < k < |times|
        ensures !FllcRun(grids, w, times, env)[k]
      {
        FllcRunTail(grids, w, times, env, k);
      }
    }
  }

  /** An initialised FLLC never initialises again, as long as the correction keeps
      the flag. */
  lemma {:induction false} FllcStaysInitialized(grids: seq<ActGrid>, w: WingMeta, times: seq<real>, env: Env)
    requires |grids| == |times| && w.fllc.Some? && w.fllc.value.initialized
    requires forall g :: g in grids ==> ViewFits(g, w)
    requires FllcOpKeepsSchedule(env)
    ensures forall k :: 0 <= k < |times| ==> !FllcRun(grids, w, times, env)[k]
    decreases |times|
  {
    if |times| > 0 {
      var w1 := UpdateVel(w, env);
      assert w1.fllc.value.initialized;
      var w2 := FllcRound(grids[0], w, times[0], env);
      assert w2 == w1;
      GridsStillFit(grids, w, w2);
      FllcStaysInitialized(grids[1..], w2, times[1..], env);
      forall k | 0 < k < |times|
        ensures !FllcRun(grids, w, times, env)[k]
      {
        FllcRunTail(grids, w, times, env, k);
      }
    }
  }

  /** An uninitialised FLLC initialises exactly once: on the first step whose time is
      past its start time, and on no other step, as long as the correction keeps the
      flag and the start time and FLLCInit sets the flag. */
  lemma {:induction false} FllcInitializesOnce(grids: seq<ActGrid>, w: WingMeta, times: seq<real>, env: Env)
    requires |grids| == |times| && w.fllc.Some? && !w.fllc.value.initialized
    requires forall g :: g in grids ==> ViewFits(g, w)
    requires FllcOpKeepsSchedule(env) && FllcInitMarks(env)
    ensures var start := w.fllc.value.fllc_start_time;
      forall k :: 0 <= k < |times| ==>
        (FllcRun(grids, w, times, env)[k] <==>
           (start < times[k] && forall j :: 0 <= j < k ==> times[j] <= start))
    decreases |times|
  {
    if |times| > 0 {
      var start := w.fllc.value.fllc_start_time;
      var fired := FllcRun(grids, w, times, env);
      var w1 := UpdateVel(w, env);
      assert !w1.fllc.value.initialized && w1.fllc.value.fllc_start_time == start;
      var w2 := FllcRound(grids[0], w, times[0], env);
      GridsStillFit(grids, w, w2);
      if times[0] > start {
        assert w2.fllc.value.initialized;
        FllcStaysInitialized(grids[1..], w2, times[1..], env);
        forall k | 0 < k < |times|
          ensures !fired[k]
        {
          FllcRunTail(grids, w, times, env, k);
        }
      } else {
        assert w2 == w1;
        FllcInitializesOnce(grids[1..], w2, times[1..], env);
        forall k | 0 < k < |times|
          ensures fired[k] <==> (start < times[k] && forall j :: 0 <= j < k ==> times[j] <= start)
        {
          FllcRunTail(grids, w, times, env, k);
          assert times[1..][k - 1] == times[k];
          assert (forall j :: 0 <= j < k - 1 ==> times[1..][j] <= start) <==>
                 (forall j :: 1 <= j < k ==> times[j] <= start);
        }
      }
    }
  }

  // ---------------------------------------------------------------------------
  // ComputeForceOp

  /** The per-point arrays the force loop reads and writes hold num_pts entries. */
  predicate PointsFit(grid: ActGrid, w: WingMeta) {
    && w.num_pts <= |grid.vel|
    && w.num_pts <= |grid.force|
    && w.num_pts <= |w.chord|
    && w.num_pts <= |w.dx|
    && w.num_pts <= |w.vel_rel|
    && w.num_pts <= |w.aoa|
    && w.num_pts <= |w.cl|
    && w.num_pts <= |w.cd|
  }

  /** The call new_wing_position_velocity(pos, vel_tr, num_pts, tn, tnp1, motion, period, vector). */
  function Advanced(grid: ActGrid, w: WingMeta, tn: real, tnp1: real, env: Env): (seq<Vec>, Vec) {
    env.advance(grid.pos, w.vel_tr,
                MotionArgs(w.num_pts, tn, tnp1, w.motion_type, w.s_period, w.s_vector))
  }

  /** What the loop of ComputeForceOp leaves behind on a wing already moved to the
      new time, as `force` and `w'`: slot p < num_pts of the force, relative wind,
      angle of attack in degrees, Cl and Cd holds point p's section values, every
      other slot and every other field of the metadata is unchanged, and the totals
      are the sums of the section loads. */
  ghost predicate Loaded(grid: ActGrid, w: WingMeta, t: real, env: Env, force: seq<Vec>, w': WingMeta)
    requires PointsFit(grid, w) && PitchTablesUsable(w)
  {
    && w' == w.(vel_rel := w'.vel_rel, aoa := w'.aoa, cl := w'.cl, cd := w'.cd,
                lift := w'.lift, drag := w'.drag)
    && |force| == |grid.force| && |w'.vel_rel| == |w.vel_rel|
    && |w'.aoa| == |w.aoa| && |w'.cl| == |w.cl| && |w'.cd| == |w.cd|
    && (forall p :: 0 <= p < w.num_pts ==>
          var s := SectionLoads(w, grid.vel[p], p, t, env);
          && force[p] == SectionReaction(BladeFrame(w, env), s, env).force
          && w'.vel_rel[p] == s.wind
          && w'.aoa[p] == env.degrees(s.aoa)
          && w'.cl[p] == s.cl
          && w'.cd[p] == s.cd)
    && (forall p :: w.num_pts <= p < |grid.force| ==> force[p] == grid.force[p])
    && (forall p :: w.num_pts <= p < |w.vel_rel| ==> w'.vel_rel[p] == w.vel_rel[p])
    && (forall p :: w.num_pts <= p < |w.aoa| ==> w'.aoa[p] == w.aoa[p])
    && (forall p :: w.num_pts <= p < |w.cl| ==> w'.cl[p] == w.cl[p])
    && (forall p :: w.num_pts <= p < |w.cd| ==> w'.cd[p] == w.cd[p])
    && Totals(w'.lift, w'.drag) == SumLoads(w, grid.vel, w.num_pts, t, env)
  }

  /** The loop of ComputeForceOp over the points p < num_pts. */
  method ForceLoop(grid: ActGrid, w: WingMeta, t: real, env: Env)
    returns (force: seq<Vec>, w': WingMeta)
    requires PointsFit(grid, w) && PitchTablesUsable(w)
    ensures Loaded(grid, w, t, env, force, w')
  {
    var frame := BladeFrame(w, env);
    force := grid.force;
    var velRel := w.vel_rel;
    var aoa := w.aoa;
    var cl := w.cl;
    var cd := w.cd;
    var ip := 0;
    while ip < w.num_pts
      invariant 0 <= ip <= w.num_pts
      invariant |force| == |grid.force| && |velRel| == |w.vel_rel|
      invariant |aoa| == |w.aoa| && |cl| == |w.cl| && |cd| == |w.cd|
      invariant forall p :: 0 <= p < ip ==>
                  var s := SectionLoads(w, grid.vel[p], p, t, env);
                  && force[p] == SectionReaction(frame, s, env).force
                  && velRel[p] == s.wind
                  && aoa[p] == env.degrees(s.aoa)
                  && cl[p] == s.cl
                  && cd[p] == s.cd
      invariant forall p :: ip <= p < |force| ==> force[p] == grid.force[p]
      invariant forall p :: ip <= p < |velRel| ==> velRel[p] == w.vel_rel[p]
      invariant forall p :: ip <= p < |aoa| ==> aoa[p] == w.aoa[p]
      invariant forall p :: ip <= p < |cl| ==> cl[p] == w.cl[p]
      invariant forall p :: ip <= p < |cd| ==> cd[p] == w.cd[p]
    {
      var s := SectionLoads(w, grid.vel[ip], ip, t, env);
      force := force[ip := SectionReaction(frame, s, env).force];
      velRel := velRel[ip := s.wind];
      aoa := aoa[ip := env.degrees(s.aoa)];
      cl := cl[ip := s.cl];
      cd := cd[ip := s.cd];
      ip := ip + 1;
    }
    var totals := TotalLoads(grid, w, t, env);
    w' := w.(vel_rel := velRel, aoa := aoa, cl := cl, cd := cd,
             lift := totals.lift, drag := totals.drag);
  }

  /** The lift and drag totals of the force loop, accumulated point by point. */
  method TotalLoads(grid: ActGrid, w: WingMeta, t: real, env: Env) returns (totals: Totals)
    requires PointsFit(grid, w) && PitchTablesUsable(w)
    ensures totals == SumLoads(w, grid.vel, w.num_pts, t, env)
  {
    totals := Totals(0.0, 0.0);
    var ip := 0;
    while ip < w.num_pts
      invariant 0 <= ip <= w.num_pts
      invariant totals == SumLoads(w, grid.vel, ip, t, env)
    {
      var s := SectionLoads(w, grid.vel[ip], ip, t, env);
      totals := Totals(totals.lift + s.lift, totals.drag + s.drag);
      ip := ip + 1;
    }
  }

  /** ComputeForceOp: advance the wing to the new time (positions and translational
      velocity), run the force loop with the advanced translational velocity, then
      the FLLC guard on the updated grid and metadata. */
  method ComputeForce(grid: ActGrid, w: WingMeta, tn: real, tnp1: real, env: Env)
    returns (grid': ActGrid, w': WingMeta)
    requires PointsFit(grid, w) && PitchTablesUsable(w)
    requires FllcFires(w.fllc, tn) ==>
               ViewFits(grid.(pos := Advanced(grid, w, tn, tnp1, env).0), w)
    ensures grid' == grid.(pos := Advanced(grid, w, tn, tnp1, env).0, force := grid'.force)
    ensures w'.vel_tr == Advanced(grid, w, tn, tnp1, env).1
    ensures Loaded(grid, w.(vel_tr := w'.vel_tr), tn, env, grid'.force,
                   w'.(component_view := w.component_view, fllc := w.fllc))
    ensures !FllcFires(w.fllc, tn) ==>
              w'.fllc == w.fllc && w'.component_view == w.component_view
    ensures FllcFires(w.fllc, tn) ==>
              && ViewFits(grid', w')
              && w'.component_view == MakeComponentView(grid', w')
              && w'.fllc == Some(env.fllcInit(w.fllc.value, w'.component_view, w.epsilon_chord.x))
  {
    var adv := Advanced(grid, w, tn, tnp1, env);
    var w1 := w.(vel_tr := adv.1);
    var force, w2 := ForceLoop(grid, w1, tn, env);
    grid' := grid.(pos := adv.0, force := force);
    w' := FllcGate(grid', w2, tn, env);
  }

  // ---------------------------------------------------------------------------
  // ProcessOutputsOp

  /** Output frequency used when none is configured. */
  const DefaultOutFreq: int := 10

  datatype OutputsOp = OutputsOp(out_freq: int)

  function Abs(a: int): nat { if a < 0 then -a else a }

  /** `a` is a whole multiple of `b`. */
  ghost predicate MultipleOf(a: int, b: int) {
    exists k :: k * b == a
  }

  /** A positive multiple of `b` is at least `b`. */
  lemma {:induction false} PositiveProductAtLeast(m: nat, b: nat)
    requires m >= 1
    ensures m * b >= b
    decreases m
  {
    if m > 1 {
      PositiveProductAtLeast(m - 1, b);
      assert m * b == (m - 1) * b + b;
    }
  }

  /** A non-zero multiple of `b` is at least as large as `b` in magnitude. */
  lemma ProductAtLeast(m: int, b: int)
    requires m != 0 && b != 0
    ensures Abs(m * b) >= Abs(b)
  {
    PositiveProductAtLeast(Abs(m), Abs(b));
    assert Abs(m * b) == Abs(m) * Abs(b);
  }

  /** C++ `%` on int: the remainder of division truncated toward zero, which takes
      the sign of the dividend (Dafny's own `%` never goes negative). */
  function TruncRem(a: int, b: int): (r: int)
    requires b != 0
    ensures Abs(r) < Abs(b)
    ensures r == 0 || (r > 0 <==> a > 0)
    ensures MultipleOf(a - r, b)
  {
    var m := a % b;
    EuclideanRemainder(a, b);
    if a < 0 && m != 0 then
      ShiftedMultiple(a - m, b);
      m - Abs(b)
    else
      m
  }

  /** Dafny's remainder lies in [0, |b|) and leaves a whole multiple of b. */
  lemma EuclideanRemainder(a: int, b: int)
    requires b != 0
    ensures 0 <= a % b < Abs(b)
    ensures a == 0 ==> a % b == 0
    ensures MultipleOf(a - a % b, b)
  {
    assert (a / b) * b == a - a % b;
  }

  /** Adding |b| to a multiple of b gives a multiple of b. */
  lemma ShiftedMultiple(x: int, b: int)
    requires MultipleOf(x, b)
    ensures MultipleOf(x + Abs(b), b)
  {
    var k :| k * b == x;
    if b > 0 {
      assert (k + 1) * b == x + Abs(b);
    } else {
      assert (k - 1) * b == x + Abs(b);
    }
  }

  /** A truncated remainder is zero exactly when the dividend is a whole multiple. */
  lemma TruncRemZeroIffMultiple(a: int, b: int)
    requires b != 0
    ensures TruncRem(a, b) == 0 <==> MultipleOf(a, b)
  {
    var r := TruncRem(a, b);
    if MultipleOf(a, b) && r != 0 {
      var k :| k * b == a;
      var k' :| k' * b == a - r;
      assert (k - k') * b == r;
      ProductAtLeast(k - k', b);
    }
  }

  /** write_outputs: the output is written on exactly the time indices that are
      whole multiples of the output frequency. */
  function WriteOutputs(op: OutputsOp, tidx: int): (written: bool)
    requires op.out_freq != 0
    ensures written <==> MultipleOf(tidx, op.out_freq)
  {
    TruncRemZeroIffMultiple(tidx, op.out_freq);
    TruncRem(tidx, op.out_freq) == 0
  }

  /** With the default frequency the output is written every tenth step: at 0 and
      30 but not at 15, nor at -15, whose C++ remainder is -5. */
  lemma DefaultOutputsEveryTenthStep()
    ensures WriteOutputs(OutputsOp(DefaultOutFreq), 0)
    ensures WriteOutputs(OutputsOp(DefaultOutFreq), 30)
    ensures !WriteOutputs(OutputsOp(DefaultOutFreq), 15)
    ensures !WriteOutputs(OutputsOp(DefaultOutFreq), -15)
  {
    assert 0 * 10 == 0 && 3 * 10 == 30;
  }
}
