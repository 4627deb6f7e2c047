/**
 * The body record of the orbital simulator: an immutable name and mass and a
 * mutable position and velocity, each a pair of coordinates.
 */
module Bodies {

  /** A 2-D coordinate pair, the `(double x, double y)` tuple of the source. */
  datatype Vec2 = Vec2(x: real, y: real)

  const Zero := Vec2(0.0, 0.0)

  function Add(a: Vec2, b: Vec2): Vec2 {
    Vec2(a.x + b.x, a.y + b.y)
  }

  function Neg(a: Vec2): Vec2 {
    Vec2(-a.x, -a.y)
  }

  function Sub(a: Vec2, b: Vec2): Vec2 {
    Vec2(a.x - b.x, a.y - b.y)
  }

  function Scale(k: real, a: Vec2): Vec2 {
    Vec2(k * a.x, k * a.y)
  }

  /** `d * d`, written once so that facts about squares are stated about one term. */
  function Sq(d: real): real {
    d * d
  }

  /** The squared length of a vector. */
  function Norm2(a: Vec2): real {
    Sq(a.x) + Sq(a.y)
  }

  /** The value of a body at one instant. */
  datatype BodyState = BodyState(name: string, mass: real, position: Vec2, velocity: Vec2)

  /**
   * A body. `Name` and `Mass` have no setter, so they are constants here;
   * `Position` and `Velocity` are settable properties.
   */
  class Body {
    const name: string
    const mass: real
    var position: Vec2
    var velocity: Vec2

    constructor (name: string, mass: real, position: Vec2, velocity: Vec2)
      ensures this.name == name && this.mass == mass
      ensures this.position == position && this.velocity == velocity
    {
      this.name := name;
      this.mass := mass;
      this.position := position;
      this.velocity := velocity;
    }

    function State(): BodyState
      reads this
    {
      BodyState(name, mass, position, velocity)
    }

    /** The `Position` setter: only the position changes. */
    method SetPosition(p: Vec2)
      modifies this
      ensures position == p
      ensures velocity == old(velocity)
    {
      position := p;
    }

    /** The `Velocity` setter: only the velocity changes. */
    method SetVelocity(v: Vec2)
      modifies this
      ensures velocity == v
      ensures position == old(position)
    {
      velocity := v;
    }
  }

  /** The states of a list of bodies, in list order. */
  function States(bs: seq<Body>): (s: seq<BodyState>)
    reads bs
    ensures |s| == |bs|
    ensures forall k :: 0 <= k < |bs| ==> s[k] == bs[k].State()
  {
    seq(|bs|, k reads bs requires 0 <= k < |bs| => bs[k].State())
  }
}
