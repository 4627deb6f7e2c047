/**
 * The plotter a simulation reports to (`IPlotter` in one variant, the
 * concrete `Plotter` in the other), seen only through the calls it receives.
 */
module Sink {
  import opened Bodies

  /** One call received by the plotter. */
  datatype SinkCall =
    | TrajectoryAdded(name: string, trajectory: seq<Vec2>)
    | BodyNameAdded(name: string, position: Vec2)

  class Plotter {
    /** Every call received so far, oldest first. */
    ghost var calls: seq<SinkCall>

    constructor ()
      ensures calls == []
    {
      calls := [];
    }

    method AddTrajectory(name: string, trajectory: seq<Vec2>)
      modifies this
      ensures calls == old(calls) + [TrajectoryAdded(name, trajectory)]
    {
      calls := calls + [TrajectoryAdded(name, trajectory)];
    }

    method AddBodyName(name: string, position: Vec2)
      modifies this
      ensures calls == old(calls) + [BodyNameAdded(name, position)]
    {
      calls := calls + [BodyNameAdded(name, position)];
    }
  }

  /** Every trajectory has a last point. */
  ghost predicate NonEmpty(trajs: seq<seq<Vec2>>) {
    forall k :: 0 <= k < |trajs| ==> trajs[k] != []
  }

  /**
   * The calls a report of bodies `names` with trajectories `trajs` makes:
   * per body, in order, its trajectory and then its name at the last point,
   * stopping right after the first empty trajectory, which has no last point.
   * There are at most two calls per body, and a report of any body opens
   * with the first body's trajectory.
   */
  function Reported(names: seq<string>, trajs: seq<seq<Vec2>>): (r: seq<SinkCall>)
    requires |trajs| == |names|
    ensures |r| <= 2 * |names|
    ensures |names| > 0 ==> |r| > 0 && r[0] == TrajectoryAdded(names[0], trajs[0])
  {
    if |names| == 0 then []
    else if trajs[0] == [] then [TrajectoryAdded(names[0], [])]
    else
      [TrajectoryAdded(names[0], trajs[0]), BodyNameAdded(names[0], trajs[0][|trajs[0]| - 1])]
        + Reported(names[1..], trajs[1..])
  }

  /** A report whose trajectories all have a last point makes two calls per body. */
  lemma {:induction false} ReportLength(names: seq<string>, trajs: seq<seq<Vec2>>)
    requires |trajs| == |names| && NonEmpty(trajs)
    ensures |Reported(names, trajs)| == 2 * |names|
  {
    if |names| > 0 {
      ReportLength(names[1..], trajs[1..]);
    }
  }

  /**
   * Body `k` of a report whose trajectories all have a last point owns
   * calls `2k` and `2k + 1`: first its whole trajectory, then its name at
   * the trajectory's last point.
   */
  lemma {:induction false} ReportOrder(names: seq<string>, trajs: seq<seq<Vec2>>, k: nat)
    requires |trajs| == |names| && NonEmpty(trajs) && k < |names|
    ensures |Reported(names, trajs)| == 2 * |names|
    ensures Reported(names, trajs)[2 * k] == TrajectoryAdded(names[k], trajs[k])
    ensures Reported(names, trajs)[2 * k + 1] == BodyNameAdded(names[k], trajs[k][|trajs[k]| - 1])
  {
    ReportLength(names, trajs);
    if k > 0 {
      ReportOrder(names[1..], trajs[1..], k - 1);
    }
  }

  /** A report whose first trajectory is empty makes exactly one call. */
  lemma FirstReportFails(names: seq<string>, trajs: seq<seq<Vec2>>)
    requires |trajs| == |names| && 0 < |names| && trajs[0] == []
    ensures Reported(names, trajs) == [TrajectoryAdded(names[0], [])]
  {
  }

  /** A report of two lists of bodies, the first with last points, is the two reports in turn. */
  lemma {:induction false} ReportAppend(n1: seq<string>, t1: seq<seq<Vec2>>, n2: seq<string>, t2: seq<seq<Vec2>>)
    requires |t1| == |n1| && |t2| == |n2| && NonEmpty(t1)
    ensures Reported(n1 + n2, t1 + t2) == Reported(n1, t1) + Reported(n2, t2)
  {
    if |n1| > 0 {
      ReportAppend(n1[1..], t1[1..], n2, t2);
      assert (n1 + n2)[1..] == n1[1..] + n2 && (t1 + t2)[1..] == t1[1..] + t2;
      assert (t1 + t2)[0] == t1[0];
    } else {
      assert n1 + n2 == n2 && t1 + t2 == t2;
    }
  }

  /** Reporting one more body, which has a last point, after a prefix that has them. */
  lemma ReportNext(names: seq<string>, trajs: seq<seq<Vec2>>, i: nat)
    requires |trajs| == |names| && i < |names| && NonEmpty(trajs[..i]) && trajs[i] != []
    ensures NonEmpty(trajs[..i + 1])
    ensures Reported(names[..i + 1], trajs[..i + 1])
      == Reported(names[..i], trajs[..i]) + [TrajectoryAdded(names[i], trajs[i]), BodyNameAdded(names[i], trajs[i][|trajs[i]| - 1])]
  {
    ReportAppend(names[..i], trajs[..i], [names[i]], [trajs[i]]);
    assert names[..i] + [names[i]] == names[..i + 1] && trajs[..i] + [trajs[i]] == trajs[..i + 1];
  }

  /** The report stops at the first empty trajectory, right after handing it over. */
  lemma ReportStops(names: seq<string>, trajs: seq<seq<Vec2>>, i: nat)
    requires |trajs| == |names| && i < |names| && NonEmpty(trajs[..i]) && trajs[i] == []
    ensures Reported(names, trajs) == Reported(names[..i], trajs[..i]) + [TrajectoryAdded(names[i], [])]
  {
    ReportAppend(names[..i], trajs[..i], names[i..], trajs[i..]);
    assert names[..i] + names[i..] == names && trajs[..i] + trajs[i..] == trajs;
    FirstReportFails(names[i..], trajs[i..]);
  }
}
