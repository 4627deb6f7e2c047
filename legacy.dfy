/**
 * The older simulator: the same step loop as `Calcules`, but forces are
 * collected into a list by `foreach` loops that skip a body by reference
 * equality, and the pull is written `G*m*m/(distance*distance)`.
 */
module LegacySimulator {
  import opened Bodies
  import opened Physics
  import opened Sink
  import opened Stepping

  /**
   * The reference skip `body == other` agrees with the index skip: when
   * the same object sits at two places of the list, its two states are at
   * the same point, so that pair contributes nothing either way.
   */
  lemma ReferenceSkip(g: Gravity, bodies: seq<Body>, i: nat, j: nat)
    requires i < |bodies| && j < |bodies| && bodies[i] == bodies[j]
    ensures Contribution(g, States(bodies), i, j) == Zero
  {
    var s := States(bodies);
    if i != j {
      CoincidentPairSkipped(g, s[i], s[j]);
    }
  }

  /** Row `i` of the contribution table, entry by entry as the inner `foreach` sees it. */
  lemma RowOf(g: Gravity, bodies: seq<Body>, i: nat) returns (row: seq<Vec2>)
    requires i < |bodies|
    ensures row == Pairs(g, States(bodies))[i] && |row| == |bodies|
    ensures forall j :: 0 <= j < |bodies| ==>
      row[j] == if bodies[i] == bodies[j] then Zero else PairForce(g, bodies[i].State(), bodies[j].State())
  {
    row := Pairs(g, States(bodies))[i];
    forall j | 0 <= j < |bodies|
      ensures row[j] == if bodies[i] == bodies[j] then Zero else PairForce(g, bodies[i].State(), bodies[j].State())
    {
      if bodies[i] == bodies[j] {
        ReferenceSkip(g, bodies, i, j);
      }
    }
  }

  class Simulator {
    /** The gravitational constant; `6.67430e-11` in the source. */
    const G: real
    /** `Math.Sqrt`. */
    const sqrt: Root
    var bodies: seq<Body>

    constructor (G: real, sqrt: Root)
      ensures this.G == G && this.sqrt == sqrt && bodies == []
    {
      this.G := G;
      this.sqrt := sqrt;
      bodies := [];
    }

    /** The force law this simulator applies. */
    function Law(): Gravity {
      Gravity(Legacy, G, sqrt)
    }

    method AddBody(body: Body)
      modifies this
      ensures bodies == old(bodies) + [body]
    {
      bodies := bodies + [body];
    }

    /** What `other` adds to the force on `body`: the pull at a nonzero distance, else nothing. */
    method PairPull(body: Body, other: Body) returns (p: Vec2)
      ensures p == LegacyPull(G, sqrt, body.State(), other.State())
    {
      ghost var a := body.State();
      ghost var b := other.State();
      var dx := other.position.x - body.position.x;
      var dy := other.position.y - body.position.y;
      assert dx == b.position.x - a.position.x && dy == b.position.y - a.position.y;
      var distance := sqrt(Sq(dx) + Sq(dy));
      p := Zero;
      if distance != 0.0 {
        SquarePositive(distance);
        var force := G * body.mass * other.mass / Sq(distance);
        assert force == G * a.mass * b.mass / Sq(distance);
        p := Vec2(force * (dx / distance), force * (dy / distance));
      }
    }

    /**
     * The inner `foreach` of `CalculateForces` for the body at place `i`:
     * the pull of every body that is not the same object, in list order.
     */
    method NetForce(i: nat) returns (f: Vec2)
      requires i < |bodies|
      ensures f == RowSum(Pairs(Law(), States(bodies))[i], |bodies|)
    {
      ghost var row := RowOf(Law(), bodies, i);
      var body := bodies[i];
      var fx, fy := 0.0, 0.0;
      var j := 0;
      while j < |bodies|
        invariant 0 <= j <= |bodies|
        invariant Vec2(fx, fy) == RowSum(row, j)
      {
        var other := bodies[j];
        if body != other {
          var p := PairPull(body, other);
          fx := fx + p.x;
          fy := fy + p.y;
        }
        j := j + 1;
      }
      f := Vec2(fx, fy);
    }

    /** The net force on every body from every other, appended in list order. */
    method CalculateForces() returns (forces: seq<Vec2>)
      ensures forces == Forces(Law(), States(bodies))
    {
      ghost var fs := Forces(Law(), States(bodies));
      forces := [];
      var i := 0;
      while i < |bodies|
        invariant 0 <= i <= |bodies|
        invariant forces == fs[..i]
      {
        var f := NetForce(i);
        assert f == fs[i];
        forces := forces + [f];
        assert fs[..i + 1] == fs[..i] + [fs[i]];
        i := i + 1;
      }
      assert fs[..i] == fs;
    }

    /**
     * One pass of the step loop: the forces from the positions before the
     * step, then every body advanced in list order and its new position
     * appended to its trajectory.
     */
    method StepOnce(dt: real, trajectories: map<string, seq<Vec2>>, ghost s0: seq<BodyState>, ghost n: nat)
      returns (after: map<string, seq<Vec2>>)
      requires DistinctNames(bodies) && Progress(s0, dt, n, trajectories)
      modifies bodies
      ensures Progress(s0, dt, n + 1, after)
    {
      var forces := CalculateForces();
      after := ApplyForces(bodies, forces, dt, trajectories);
      RunLastStep(Law(), s0, dt, n);
      RecordStep(Law(), s0, dt, n, bodies, trajectories, after, States(bodies));
    }

    /**
     * The bodies are in the state `n` steps of length `dt` reach from `s0`,
     * and `trajectories` records those `n` steps.
     */
    ghost predicate Progress(s0: seq<BodyState>, dt: real, n: nat, trajectories: map<string, seq<Vec2>>)
      reads this, bodies
    {
      && NonzeroMasses(s0) && |s0| == |bodies|
      && States(bodies) == Run(Law(), s0, dt, n)
      && Recorded(Law(), s0, dt, n, bodies, trajectories)
    }

    /** The step loop of `Simulate`: `steps` passes, each recorded in the trajectories. */
    method RunSteps(dt: real, steps: int, trajectories: map<string, seq<Vec2>>)
      returns (after: map<string, seq<Vec2>>)
      requires NonzeroMasses(States(bodies)) && DistinctNames(bodies)
      requires Recorded(Law(), States(bodies), dt, 0, bodies, trajectories)
      modifies bodies
      ensures States(bodies) == Run(Law(), old(States(bodies)), dt, StepCount(steps))
      ensures Recorded(Law(), old(States(bodies)), dt, StepCount(steps), bodies, after)
    {
      ghost var s0 := States(bodies);
      ghost var n := StepCount(steps);
      after := trajectories;
      var step := 0;
      while step < steps
        invariant 0 <= step <= n
        invariant Progress(s0, dt, step, after)
      {
        after := StepOnce(dt, after, s0, step);
        step := step + 1;
      }
      assert step == n;
    }

    /**
     * Runs `steps` steps of length `dt` and reports every trajectory. It
     * stops before any step when two bodies share a name, and when there
     * are bodies but no step it stops at the first body's report, whose
     * trajectory has no last point.
     */
    method Simulate(dt: real, steps: int, plotter: Plotter) returns (outcome: Outcome, trajectories: map<string, seq<Vec2>>)
      requires NonzeroMasses(States(bodies))
      modifies bodies, plotter
      ensures bodies == old(bodies)
      ensures outcome == DuplicateName <==> !DistinctNames(bodies)
      ensures outcome == DuplicateName ==> States(bodies) == old(States(bodies)) && plotter.calls == old(plotter.calls)
      ensures outcome != DuplicateName ==> States(bodies) == Run(Law(), old(States(bodies)), dt, StepCount(steps))
      ensures outcome != DuplicateName ==> Recorded(Law(), old(States(bodies)), dt, StepCount(steps), bodies, trajectories)
      ensures outcome == EmptyTrajectory <==> DistinctNames(bodies) && steps <= 0 && |bodies| > 0
      ensures outcome == Completed ==> Keyed(bodies, trajectories) && NonEmpty(TrajectoriesOf(bodies, trajectories))
      ensures outcome != DuplicateName ==>
        plotter.calls == old(plotter.calls) + Reported(NamesOf(bodies), TrajectoriesOf(bodies, trajectories))
      ensures outcome == EmptyTrajectory ==> plotter.calls == old(plotter.calls) + [TrajectoryAdded(bodies[0].name, [])]
    {
      var unique;
      unique, trajectories := NewTrajectories(bodies);
      if !unique {
        outcome := DuplicateName;
        return;
      }
      outcome, trajectories := StepAndReport(dt, steps, trajectories, plotter);
    }

    /** `Simulate` after the dictionary of empty trajectories is built: the step loop, then the report. */
    method StepAndReport(dt: real, steps: int, trajectories: map<string, seq<Vec2>>, plotter: Plotter)
      returns (outcome: Outcome, after: map<string, seq<Vec2>>)
      requires NonzeroMasses(States(bodies)) && DistinctNames(bodies)
      requires Recorded(Law(), States(bodies), dt, 0, bodies, trajectories)
      modifies bodies, plotter
      ensures outcome != DuplicateName
      ensures States(bodies) == Run(Law(), old(States(bodies)), dt, StepCount(steps))
      ensures Recorded(Law(), old(States(bodies)), dt, StepCount(steps), bodies, after)
      ensures outcome == EmptyTrajectory <==> steps <= 0 && |bodies| > 0
      ensures outcome == Completed ==> NonEmpty(TrajectoriesOf(bodies, after))
      ensures plotter.calls == old(plotter.calls) + Reported(NamesOf(bodies), TrajectoriesOf(bodies, after))
      ensures outcome == EmptyTrajectory ==> plotter.calls == old(plotter.calls) + [TrajectoryAdded(bodies[0].name, [])]
    {
      after := RunSteps(dt, steps, trajectories);
      var complete := Report(bodies, after, plotter);
      ReportOutcome(bodies, after, StepCount(steps));
      if complete {
        outcome := Completed;
      } else {
        outcome := EmptyTrajectory;
        FirstReportFails(NamesOf(bodies), TrajectoriesOf(bodies, after));
      }
    }
  }
}
