/**
 * The `Calcules` simulator: bodies in a list, forces computed into an array
 * with index loops, and a simulation that steps every body and reports its
 * trajectory to a plotter.
 */
module CalculesSimulator {
  import opened Bodies
  import opened Physics
  import opened Sink
  import opened Stepping

  /** The gravitational constant the source hard-codes, `6.67430e-11`. */
  const SourceG: real := 0.0000000000667430

  class Simulator {
    /** The gravitational constant; `SourceG` in the source. */
    const G: real
    /** `Math.Sqrt`. */
    const sqrt: Root
    var bodies: seq<Body>

    constructor (G: real, sqrt: Root)
      ensures this.G == G && this.sqrt == sqrt && bodies == []
    {
      this.G := G;
      this.sqrt := sqrt;
      bodies := [];
    }

    /** The force law this simulator applies. */
    function Law(): Gravity {
      Gravity(Calcules, G, sqrt)
    }

    method AddBody(body: Body)
      modifies this
      ensures bodies == old(bodies) + [body]
    {
      bodies := bodies + [body];
    }

    /** Adds one new body per row of `table`, in row order, after the bodies already there. */
    method AddDefaultBodies(table: seq<BodyState>)
      modifies this
      ensures |bodies| == |old(bodies)| + |table|
      ensures bodies[..|old(bodies)|] == old(bodies)
      ensures forall m :: |old(bodies)| <= m < |bodies| ==>
        fresh(bodies[m]) && bodies[m].State() == table[m - |old(bodies)|]
    {
      var n := |bodies|;
      var i := 0;
      while i < |table|
        invariant 0 <= i <= |table|
        invariant |bodies| == n + i && bodies[..n] == old(bodies)
        invariant forall m :: n <= m < n + i ==> fresh(bodies[m]) && bodies[m].State() == table[m - n]
      {
        var row := table[i];
        var body := new Body(row.name, row.mass, row.position, row.velocity);
        AddBody(body);
        assert bodies[..n] == old(bodies) by {
          assert bodies[..n] == (bodies[..n + i] + [body])[..n];
        }
        i := i + 1;
      }
    }

    /**
     * What body `other` adds to the force on body `body`: the pull along
     * the line between them, or nothing when they are at zero distance.
     */
    method PairPull(body: Body, other: Body) returns (p: Vec2)
      ensures p == CalculesPull(G, sqrt, body.State(), other.State())
    {
      ghost var a := body.State();
      ghost var b := other.State();
      var dx := other.position.x - body.position.x;
      var dy := other.position.y - body.position.y;
      assert dx == b.position.x - a.position.x && dy == b.position.y - a.position.y;
      var distSq := Sq(dx) + Sq(dy);
      var dist := sqrt(distSq);
      p := Zero;
      if dist != 0.0 {
        var f := G * body.mass * other.mass / distSq;
        assert f == G * a.mass * b.mass / distSq;
        p := Vec2(f * dx / dist, f * dy / dist);
      }
    }

    /**
     * The net force on body `i`, the inner loop of `CalculateForces`: what
     * every other body adds, in body order.
     */
    method NetForce(i: nat) returns (f: Vec2)
      requires i < |bodies|
      ensures f == RowSum(Pairs(Law(), States(bodies))[i], |bodies|)
    {
      ghost var s := States(bodies);
      ghost var row := Pairs(Law(), s)[i];
      var body := bodies[i];
      var fx, fy := 0.0, 0.0;
      var j := 0;
      while j < |bodies|
        invariant 0 <= j <= |bodies|
        invariant Vec2(fx, fy) == RowSum(row, j)
      {
        if i != j {
          var p := PairPull(body, bodies[j]);
          assert p == row[j] by {
            assert row[j] == PairForce(Law(), s[i], s[j]);
          }
          fx := fx + p.x;
          fy := fy + p.y;
        } else {
          assert row[j] == Zero;
        }
        j := j + 1;
      }
      f := Vec2(fx, fy);
    }

    /** The net force on every body from every other, in body order. */
    method CalculateForces() returns (forces: seq<Vec2>)
      ensures forces == Forces(Law(), States(bodies))
    {
      ghost var M := Pairs(Law(), States(bodies));
      ghost var fs := RowSums(M);
      var a := new Vec2[|bodies|];
      var i := 0;
      while i < |bodies|
        invariant 0 <= i <= |bodies|
        invariant a[..i] == fs[..i]
      {
        a[i] := NetForce(i);
        assert a[i] == fs[i];
        assert a[..i + 1] == a[..i] + [a[i]] && fs[..i + 1] == fs[..i] + [fs[i]];
        i := i + 1;
      }
      assert a[..] == a[..i] && fs == fs[..i];
      forces := a[..];
    }

    /**
     * One pass of the step loop: every force from the positions before the
     * step, then every body advanced in list order and its new position
     * appended to its trajectory.
     */
    method StepOnce(dt: real, trajectories: map<string, seq<Vec2>>, ghost s0: seq<BodyState>, ghost n: nat)
      returns (after: map<string, seq<Vec2>>)
      requires DistinctNames(bodies) && Progress(s0, dt, n, trajectories)
      modifies bodies
      ensures Progress(s0, dt, n + 1, after)
    {
      var forces := CalculateForces();
      after := ApplyForces(bodies, forces, dt, trajectories);
      RunLastStep(Law(), s0, dt, n);
      RecordStep(Law(), s0, dt, n, bodies, trajectories, after, States(bodies));
    }

    /**
     * The bodies are in the state `n` steps of length `dt` reach from `s0`,
     * and `trajectories` records those `n` steps.
     */
    ghost predicate Progress(s0: seq<BodyState>, dt: real, n: nat, trajectories: map<string, seq<Vec2>>)
      reads this, bodies
    {
      && NonzeroMasses(s0) && |s0| == |bodies|
      && States(bodies) == Run(Law(), s0, dt, n)
      && Recorded(Law(), s0, dt, n, bodies, trajectories)
    }

    /** The step loop of `Simulate`: `steps` passes, each recorded in the trajectories. */
    method RunSteps(dt: real, steps: int, trajectories: map<string, seq<Vec2>>)
      returns (after: map<string, seq<Vec2>>)
      requires NonzeroMasses(States(bodies)) && DistinctNames(bodies)
      requires Recorded(Law(), States(bodies), dt, 0, bodies, trajectories)
      modifies bodies
      ensures States(bodies) == Run(Law(), old(States(bodies)), dt, StepCount(steps))
      ensures Recorded(Law(), old(States(bodies)), dt, StepCount(steps), bodies, after)
    {
      ghost var s0 := States(bodies);
      ghost var n := StepCount(steps);
      after := trajectories;
      var step := 0;
      while step < steps
        invariant 0 <= step <= n
        invariant Progress(s0, dt, step, after)
      {
        after := StepOnce(dt, after, s0, step);
        step := step + 1;
      }
      assert step == n;
    }

    /**
     * Runs `steps` steps of length `dt` and reports every trajectory. It
     * stops before any step when two bodies share a name, and when there
     * are bodies but no step it stops at the first body's report, whose
     * trajectory has no last point.
     */
    method Simulate(dt: real, steps: int, plotter: Plotter) returns (outcome: Outcome, trajectories: map<string, seq<Vec2>>)
      requires NonzeroMasses(States(bodies))
      modifies bodies, plotter
      ensures bodies == old(bodies)
      ensures outcome == DuplicateName <==> !DistinctNames(bodies)
      ensures outcome == DuplicateName ==> States(bodies) == old(States(bodies)) && plotter.calls == old(plotter.calls)
      ensures outcome != DuplicateName ==> States(bodies) == Run(Law(), old(States(bodies)), dt, StepCount(steps))
      ensures outcome != DuplicateName ==> Recorded(Law(), old(States(bodies)), dt, StepCount(steps), bodies, trajectories)
      ensures outcome == EmptyTrajectory <==> DistinctNames(bodies) && steps <= 0 && |bodies| > 0
      ensures outcome == Completed ==> Keyed(bodies, trajectories) && NonEmpty(TrajectoriesOf(bodies, trajectories))
      ensures outcome != DuplicateName ==>
        plotter.calls == old(plotter.calls) + Reported(NamesOf(bodies), TrajectoriesOf(bodies, trajectories))
      ensures outcome == EmptyTrajectory ==> plotter.calls == old(plotter.calls) + [TrajectoryAdded(bodies[0].name, [])]
    {
      var unique;
      unique, trajectories := NewTrajectories(bodies);
      if !unique {
        outcome := DuplicateName;
        return;
      }
      outcome, trajectories := StepAndReport(dt, steps, trajectories, plotter);
    }

    /** `Simulate` after the dictionary of empty trajectories is built: the step loop, then the report. */
    method StepAndReport(dt: real, steps: int, trajectories: map<string, seq<Vec2>>, plotter: Plotter)
      returns (outcome: Outcome, after: map<string, seq<Vec2>>)
      requires NonzeroMasses(States(bodies)) && DistinctNames(bodies)
      requires Recorded(Law(), States(bodies), dt, 0, bodies, trajectories)
      modifies bodies, plotter
      ensures outcome != DuplicateName
      ensures States(bodies) == Run(Law(), old(States(bodies)), dt, StepCount(steps))
      ensures Recorded(Law(), old(States(bodies)), dt, StepCount(steps), bodies, after)
      ensures outcome == EmptyTrajectory <==> steps <= 0 && |bodies| > 0
      ensures outcome == Completed ==> NonEmpty(TrajectoriesOf(bodies, after))
      ensures plotter.calls == old(plotter.calls) + Reported(NamesOf(bodies), TrajectoriesOf(bodies, after))
      ensures outcome == EmptyTrajectory ==> plotter.calls == old(plotter.calls) + [TrajectoryAdded(bodies[0].name, [])]
    {
      after := RunSteps(dt, steps, trajectories);
      var complete := Report(bodies, after, plotter);
      ReportOutcome(bodies, after, StepCount(steps));
      if complete {
        outcome := Completed;
      } else {
        outcome := EmptyTrajectory;
        FirstReportFails(NamesOf(bodies), TrajectoriesOf(bodies, after));
      }
    }
  }
}
