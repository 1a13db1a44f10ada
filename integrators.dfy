/** The Runge-Kutta time integrators of the driver
    (include/mist/driver.hpp:53-83), over an abstract physics: the driver
    sees a physics module only through a handful of operations on its
    state type S, which are parameters here. */
module Integrators {
  import opened Wrappers

  /** The operations a physics module supplies (its configuration is
      captured in them). Times are real numbers. */
  datatype Physics<!S> = Physics(
    initialState: S,
    eulerStep: (S, real) -> S,
    average: (S, S, real) -> S,        // average(a, b, alpha) = (1 - alpha) a + alpha b
    courantTime: S -> real,
    getTime: (S, int) -> real,         // the time coordinate of a state; kind 0 is simulation time
    timeseriesSample: S -> seq<(string, real)>)

  /** get_time(s, kind): the time coordinate of the given kind. */
  function GetTime<S>(p: Physics<S>, s: S, kind: int): real
  {
    p.getTime(s, kind)
  }

  /** timeseries_sample(physics, s): the named scalars of a state. */
  function TimeseriesSample<S>(p: Physics<S>, s: S): seq<(string, real)>
  {
    p.timeseriesSample(s)
  }

  /** rk1_step: one forward Euler step. */
  function Rk1Step<S>(p: Physics<S>, s0: S, dt: real): S
  {
    p.eulerStep(s0, dt)
  }

  /** rk2_step: two Euler steps averaged with the start, weight 1/2. */
  function Rk2Step<S>(p: Physics<S>, s0: S, dt: real): S
  {
    var s1 := p.eulerStep(s0, dt);
    var s2 := p.eulerStep(s1, dt);
    p.average(s0, s2, 0.5)
  }

  /** rk3_step: the three-stage strong-stability-preserving scheme. */
  function Rk3Step<S>(p: Physics<S>, s0: S, dt: real): S
  {
    var s1 := p.eulerStep(s0, dt);
    var s2 := p.eulerStep(s1, dt);
    var s3 := p.eulerStep(p.average(s0, s2, 0.25), dt);
    p.average(s0, s3, 2.0 / 3.0)
  }

  const RkOrderError := "rk_order must be 1, 2, or 3"

  /** The driver's rk_step closure: it dispatches on the configured order
      and fails, when it is called, for any order other than 1, 2 or 3. */
  function RkStep<S>(order: int, p: Physics<S>, s: S, dt: real): (r: Result<S, string>)
    ensures r.Success? <==> order == 1 || order == 2 || order == 3
    ensures r.Failure? ==> r.error == RkOrderError
  {
    if order == 1 then Success(Rk1Step(p, s, dt))
    else if order == 2 then Success(Rk2Step(p, s, dt))
    else if order == 3 then Success(Rk3Step(p, s, dt))
    else Failure(RkOrderError)
  }

  // ---------------------------------------------------------------------
  // Properties
  // ---------------------------------------------------------------------

  /** A physics whose Euler step advances simulation time by exactly dt
      and whose average mixes the two times with the same weights as the
      states. */
  ghost predicate TimeConsistent<S(!new)>(p: Physics<S>)
  {
    (forall s, dt :: p.getTime(p.eulerStep(s, dt), 0) == p.getTime(s, 0) + dt) &&
    (forall a, b, alpha :: p.getTime(p.average(a, b, alpha), 0) == (1.0 - alpha) * p.getTime(a, 0) + alpha * p.getTime(b, 0))
  }

  /** Every accepted order advances simulation time by exactly dt: the
      interpolated state an exact output builds sits at the time asked for. */
  lemma RkAdvancesTime<S(!new)>(order: int, p: Physics<S>, s: S, dt: real)
    requires TimeConsistent(p)
    requires order == 1 || order == 2 || order == 3
    ensures GetTime(p, RkStep(order, p, s, dt).value, 0) == GetTime(p, s, 0) + dt
  {
    var t := p.getTime(s, 0);
    var s1 := p.eulerStep(s, dt);
    var s2 := p.eulerStep(s1, dt);
    assert p.getTime(s2, 0) == t + 2.0 * dt;
    if order == 3 {
      var a := p.average(s, s2, 0.25);
      assert p.getTime(a, 0) == t + 0.5 * dt;
      var s3 := p.eulerStep(a, dt);
      assert p.getTime(s3, 0) == t + 1.5 * dt;
    }
  }

  /** A state that stays put under an Euler step, and that averaging with
      itself does not move, is left where it is by every order. */
  lemma RkKeepsSteadyState<S>(order: int, p: Physics<S>, s: S, dt: real)
    requires order == 1 || order == 2 || order == 3
    requires p.eulerStep(s, dt) == s
    requires forall alpha :: p.average(s, s, alpha) == s
    ensures RkStep(order, p, s, dt) == Success(s)
  {
    if order == 3 {
      assert p.average(s, s, 0.25) == s;
      assert p.average(s, s, 2.0 / 3.0) == s;
    } else if order == 2 {
      assert p.average(s, s, 0.5) == s;
    }
  }

  // ---------------------------------------------------------------------
  // The linear test equation dy/dt = lambda * y
  // ---------------------------------------------------------------------

  datatype LinearState = LinearState(t: real, y: real)

  /** Forward Euler for dy/dt = lambda * y, with the averaging the
      integrators expect. */
  function LinearPhysics(lambda: real): Physics<LinearState>
  {
    Physics(
      LinearState(0.0, 1.0),
      (s: LinearState, dt: real) => LinearState(s.t + dt, s.y + dt * lambda * s.y),
      (a: LinearState, b: LinearState, alpha: real) =>
        LinearState((1.0 - alpha) * a.t + alpha * b.t, (1.0 - alpha) * a.y + alpha * b.y),
      (s: LinearState) => 1.0,
      (s: LinearState, kind: int) => s.t,
      (s: LinearState) => [("y", s.y)])
  }

  lemma LinearPhysicsTimeConsistent(lambda: real)
    ensures TimeConsistent(LinearPhysics(lambda))
  {
  }

  /** On the linear test equation order k multiplies y by the Taylor
      polynomial of exp(h) of degree k, h = lambda * dt: its local error
      is of order k + 1. */
  lemma LinearTaylor(lambda: real, s: LinearState, dt: real)
    ensures Rk1Step(LinearPhysics(lambda), s, dt).y == s.y * (1.0 + lambda * dt)
    ensures Rk2Step(LinearPhysics(lambda), s, dt).y
         == s.y * (1.0 + lambda * dt + (lambda * dt) * (lambda * dt) / 2.0)
    ensures Rk3Step(LinearPhysics(lambda), s, dt).y
         == s.y * (1.0 + lambda * dt + (lambda * dt) * (lambda * dt) / 2.0
                   + (lambda * dt) * (lambda * dt) * (lambda * dt) / 6.0)
  {
    var p := LinearPhysics(lambda);
    var h := lambda * dt;
    var y := s.y;
    var s1 := p.eulerStep(s, dt);
    assert s1.y == y * (1.0 + h);
    var s2 := p.eulerStep(s1, dt);
    assert s2.y == y * (1.0 + h) * (1.0 + h);
    var a := p.average(s, s2, 0.25);
    assert a.y == y * (1.0 + 0.5 * h + 0.25 * h * h);
    var s3 := p.eulerStep(a, dt);
    assert s3.y == y * (1.0 + 0.5 * h + 0.25 * h * h) * (1.0 + h);
    assert s3.y == y * (1.0 + 1.5 * h + 0.75 * h * h + 0.25 * h * h * h);
  }
}
