/**
 * The parts of `Simulate` in which both simulators take the same steps: the
 * trajectory dictionary, the per-body update of one step, and the report to
 * the plotter.
 */
module Stepping {
  import opened Bodies
  import opened Physics
  import opened Sink

  /** How a simulation ends: normally, or with one of the two exceptions it can raise. */
  datatype Outcome =
    | Completed
      /** `ToDictionary` found two bodies with the same name; nothing was stepped. */
    | DuplicateName
      /** `Last()` met an empty trajectory while reporting. */
    | EmptyTrajectory

  /** The number of steps a `for (step = 0; step < steps; step++)` loop takes. */
  function StepCount(steps: int): (n: nat)
    ensures steps <= 0 ==> n == 0
    ensures steps > 0 ==> n == steps
  {
    if steps < 0 then 0 else steps
  }

  function NamesOf(bodies: seq<Body>): (ns: seq<string>)
    ensures |ns| == |bodies|
    ensures forall k {:trigger ns[k]} :: 0 <= k < |bodies| ==> ns[k] == bodies[k].name
  {
    seq(|bodies|, k requires 0 <= k < |bodies| => bodies[k].name)
  }

  /** No name occurs twice. */
  ghost predicate Distinct(names: seq<string>) {
    forall a, b :: 0 <= a < b < |names| ==> names[a] != names[b]
  }

  /** No two bodies share a name (names are constants of a body). */
  ghost predicate DistinctNames(bodies: seq<Body>) {
    Distinct(NamesOf(bodies))
  }

  /** Every body has an entry in `trajectories`. */
  ghost predicate Keyed(bodies: seq<Body>, trajectories: map<string, seq<Vec2>>) {
    forall k :: 0 <= k < |bodies| ==> bodies[k].name in trajectories
  }

  /** The trajectories of the bodies, in body order. */
  function TrajectoriesOf(bodies: seq<Body>, trajectories: map<string, seq<Vec2>>): (ts: seq<seq<Vec2>>)
    requires Keyed(bodies, trajectories)
    ensures |ts| == |bodies|
    ensures forall k :: 0 <= k < |bodies| ==> ts[k] == trajectories[bodies[k].name]
  {
    seq(|bodies|, k requires 0 <= k < |bodies| => trajectories[bodies[k].name])
  }

  /**
   * `ToDictionary(b => b.Name, b => new List<(double, double)>())`: an empty
   * trajectory for every name, failing at the first name seen twice.
   */
  method NewTrajectories(bodies: seq<Body>) returns (unique: bool, trajectories: map<string, seq<Vec2>>)
    ensures unique <==> DistinctNames(bodies)
    ensures unique ==> Keyed(bodies, trajectories)
    ensures unique ==> forall k :: 0 <= k < |bodies| ==> trajectories[bodies[k].name] == []
    ensures unique ==> forall n :: n in trajectories ==> exists k :: 0 <= k < |bodies| && bodies[k].name == n
  {
    ghost var names := NamesOf(bodies);
    trajectories := map[];
    var i := 0;
    while i < |bodies|
      invariant 0 <= i <= |bodies|
      invariant Distinct(names[..i])
      invariant forall k :: 0 <= k < i ==> bodies[k].name in trajectories && trajectories[bodies[k].name] == []
      invariant forall n :: n in trajectories ==> exists k :: 0 <= k < i && bodies[k].name == n
    {
      var name := bodies[i].name;
      assert name == names[i];
      if name in trajectories {
        var k :| 0 <= k < i && bodies[k].name == name;
        assert names[k] == names[i];
        return false, trajectories;
      }
      forall k | 0 <= k < i
        ensures names[k] != names[i]
      {
        assert names[k] == bodies[k].name;
      }
      trajectories := trajectories[name := []];
      i := i + 1;
    }
    assert names[..i] == names;
    return true, trajectories;
  }

  /** Bodies with distinct names are distinct objects. */
  lemma DistinctObjects(bodies: seq<Body>)
    requires DistinctNames(bodies)
    ensures forall a, b :: 0 <= a < |bodies| && 0 <= b < |bodies| && a != b ==>
      bodies[a].name != bodies[b].name && bodies[a] != bodies[b]
  {
    var names := NamesOf(bodies);
    forall a, b | 0 <= a < |bodies| && 0 <= b < |bodies| && a != b
      ensures bodies[a].name != bodies[b].name
    {
      if a < b {
        assert names[a] != names[b];
      } else {
        assert names[b] != names[a];
      }
    }
  }

  /**
   * One body's update under force `f`: the velocity setter first, then the
   * position setter with the velocity just set.
   */
  method AdvanceBody(body: Body, f: Vec2, dt: real)
    requires body.mass != 0.0
    modifies body
    ensures body.State() == Advance(old(body.State()), f, dt)
  {
    body.SetVelocity(Vec2(body.velocity.x + f.x / body.mass * dt, body.velocity.y + f.y / body.mass * dt));
    body.SetPosition(Vec2(body.position.x + body.velocity.x * dt, body.position.y + body.velocity.y * dt));
  }

  /**
   * The body loop of one step: each body in list order is advanced under
   * its force, and its trajectory gains its new position.
   */
  method ApplyForces(bodies: seq<Body>, forces: seq<Vec2>, dt: real, trajectories: map<string, seq<Vec2>>)
    returns (after: map<string, seq<Vec2>>)
    requires |forces| == |bodies| && NonzeroMasses(States(bodies))
    requires DistinctNames(bodies) && Keyed(bodies, trajectories)
    modifies bodies
    ensures States(bodies) == AdvanceAll(old(States(bodies)), forces, dt)
    ensures after.Keys == trajectories.Keys
    ensures forall k :: 0 <= k < |bodies| ==>
      after[bodies[k].name] == trajectories[bodies[k].name] + [States(bodies)[k].position]
  {
    DistinctObjects(bodies);
    ghost var s := States(bodies);
    ghost var t := AdvanceAll(s, forces, dt);
    after := trajectories;
    var i := 0;
    while i < |bodies|
      invariant 0 <= i <= |bodies|
      invariant forall k :: 0 <= k < |bodies| ==> bodies[k].State() == if k < i then t[k] else s[k]
      invariant after.Keys == trajectories.Keys
      invariant forall k :: 0 <= k < |bodies| ==>
        after[bodies[k].name] == trajectories[bodies[k].name] + if k < i then [t[k].position] else []
    {
      var body := bodies[i];
      AdvanceBody(body, forces[i], dt);
      after := after[body.name := after[body.name] + [body.position]];
      i := i + 1;
    }
    assert States(bodies) == t;
  }

  /**
   * The report: for each body in list order, its trajectory, then its name
   * at the trajectory's last point. Stops with `false` right after handing
   * over the first empty trajectory, whose `Last()` throws.
   */
  method Report(bodies: seq<Body>, trajectories: map<string, seq<Vec2>>, plotter: Plotter) returns (complete: bool)
    requires Keyed(bodies, trajectories)
    modifies plotter
    ensures complete <==> NonEmpty(TrajectoriesOf(bodies, trajectories))
    ensures plotter.calls == old(plotter.calls) + Reported(NamesOf(bodies), TrajectoriesOf(bodies, trajectories))
  {
    ghost var names := NamesOf(bodies);
    ghost var trajs := TrajectoriesOf(bodies, trajectories);
    var i := 0;
    while i < |bodies|
      invariant 0 <= i <= |bodies|
      invariant NonEmpty(trajs[..i])
      invariant plotter.calls == old(plotter.calls) + Reported(names[..i], trajs[..i])
    {
      var name := bodies[i].name;
      var trajectory := trajectories[name];
      assert name == names[i] && trajectory == trajs[i];
      plotter.AddTrajectory(name, trajectory);
      if |trajectory| == 0 {
        ReportStops(names, trajs, i);
        return false;
      }
      plotter.AddBodyName(name, trajectory[|trajectory| - 1]);
      ReportNext(names, trajs, i);
      i := i + 1;
    }
    assert names[..i] == names && trajs[..i] == trajs;
    return true;
  }

  /**
   * When every trajectory holds `n` points, every one has a last point
   * exactly when there was a step or there is no body.
   */
  lemma ReportOutcome(bodies: seq<Body>, trajectories: map<string, seq<Vec2>>, n: nat)
    requires Keyed(bodies, trajectories)
    requires forall k :: 0 <= k < |bodies| ==> |trajectories[bodies[k].name]| == n
    ensures NonEmpty(TrajectoriesOf(bodies, trajectories)) <==> n > 0 || |bodies| == 0
  {
    if n == 0 && |bodies| > 0 {
      assert TrajectoriesOf(bodies, trajectories)[0] == [];
    }
  }

  /**
   * `trajectories` holds, for every body, the trajectory it records over
   * the first `n` steps from `s0`.
   */
  ghost predicate Recorded(g: Gravity, s0: seq<BodyState>, dt: real, n: nat, bodies: seq<Body>, trajectories: map<string, seq<Vec2>>)
    requires NonzeroMasses(s0) && |s0| == |bodies|
  {
    Keyed(bodies, trajectories) &&
    forall k :: 0 <= k < |bodies| ==> trajectories[bodies[k].name] == Trajectory(g, s0, dt, n, k)
  }

  /** Appending every body's position after step `n + 1` extends the record by that step. */
  lemma RecordStep(g: Gravity, s0: seq<BodyState>, dt: real, n: nat, bodies: seq<Body>,
                   before: map<string, seq<Vec2>>, after: map<string, seq<Vec2>>, r: seq<BodyState>)
    requires NonzeroMasses(s0) && |s0| == |bodies|
    requires Recorded(g, s0, dt, n, bodies, before)
    requires r == Run(g, s0, dt, n + 1) && after.Keys == before.Keys
    requires forall k :: 0 <= k < |bodies| ==> after[bodies[k].name] == before[bodies[k].name] + [r[k].position]
    ensures Recorded(g, s0, dt, n + 1, bodies, after)
  {
  }

  /**
   * A record of `n > 0` steps that brought the bodies to their current
   * states ends, for every body, at the body's current position.
   */
  lemma RecordedLast(g: Gravity, s0: seq<BodyState>, dt: real, n: nat, bodies: seq<Body>, trajectories: map<string, seq<Vec2>>)
    requires NonzeroMasses(s0) && |s0| == |bodies|
    requires Recorded(g, s0, dt, n, bodies, trajectories) && States(bodies) == Run(g, s0, dt, n)
    ensures forall k :: 0 <= k < |bodies| ==> |trajectories[bodies[k].name]| == n
    ensures n > 0 ==> forall k :: 0 <= k < |bodies| ==> trajectories[bodies[k].name][n - 1] == bodies[k].position
  {
    if n > 0 {
      forall k | 0 <= k < |bodies|
        ensures trajectories[bodies[k].name][n - 1] == bodies[k].position
      {
        TrajectoryEntry(g, s0, dt, n, k, n - 1);
        assert States(bodies)[k] == bodies[k].State();
      }
    }
  }
}
