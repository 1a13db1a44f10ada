/** Scheduled outputs (include/mist/driver.hpp:87-139): a channel's
    cadence, its firing policy, and the two handlers the run loop calls
    around every step. A handler that fires adds one to the channel's
    count and one interval to its next time before the callback runs. */
module Scheduling {
  import opened Wrappers
  import opened Integrators
  import opened DriverStates

  datatype Policy = Nearest | Exact

  const PolicyError := "scheduling policy must be 'exact' or 'nearest'"
  const ValidateError := "exact scheduling requires interval_kind = 0"

  /** The configuration text of a policy. */
  function PolicyName(policy: Policy): string
  {
    match policy
    case Exact => "exact"
    case Nearest => "nearest"
  }

  /** parse_scheduling_policy. */
  function ParsePolicy(text: string): (r: Result<Policy, string>)
    ensures r.Failure? ==> r.error == PolicyError
  {
    if text == "exact" then Success(Exact)
    else if text == "nearest" then Success(Nearest)
    else Failure(PolicyError)
  }

  /** Parsing accepts exactly the two policy names, and reads each as the
      policy it names. */
  lemma ParsePolicyNames(text: string, policy: Policy)
    ensures ParsePolicy(PolicyName(policy)) == Success(policy)
    ensures ParsePolicy(text).Success? <==> text == "exact" || text == "nearest"
    ensures ParsePolicy(text).Success? ==> PolicyName(ParsePolicy(text).value) == text
  {
  }

  /** One scheduled_output: its channel (which count and next_time it
      points to), interval, time kind and policy. */
  datatype ScheduledOutput = ScheduledOutput(channel: Channel, interval: real, intervalKind: int, policy: Policy)

  /** validate: exact scheduling is only allowed on simulation time. */
  function Validate(o: ScheduledOutput): (r: Result<(), string>)
    ensures r.Failure? <==> o.policy == Exact && o.intervalKind != 0
    ensures r.Failure? ==> r.error == ValidateError
  {
    if o.policy == Exact && o.intervalKind != 0 then Failure(ValidateError) else Success(())
  }

  /** The exact handler's firing condition: the step from t0 to t1 reaches
      the next output time, which lies strictly after t0. */
  predicate ExactDue(o: ScheduledOutput, t0: real, t1: real, nextTime: real)
  {
    o.policy == Exact && o.intervalKind == 0 && t0 < nextTime && t1 >= nextTime
  }

  /** The nearest handler's firing condition, on the post-step time. */
  predicate NearestDue(o: ScheduledOutput, time: real, nextTime: real)
  {
    o.policy == Nearest && time >= nextTime
  }

  /** The partial step an exact output interpolates with lies in
      (0, t1 - t0]: it never steps backwards and never beyond the step. */
  lemma ExactSubstep(o: ScheduledOutput, t0: real, t1: real, nextTime: real)
    requires ExactDue(o, t0, t1, nextTime)
    ensures 0.0 < nextTime - t0 <= t1 - t0
  {
  }

  /** The two policies never both fire for one output. */
  lemma PoliciesExclusive(o: ScheduledOutput, t0: real, t1: real, time: real, nextTime: real)
    ensures !(ExactDue(o, t0, t1, nextTime) && NearestDue(o, time, nextTime))
  {
  }

  /** handle_exact_output: when due, builds the state at the next output
      time by integrating the pre-step state over next_time - t0, then
      advances the channel's clock and hands that state to the callback.
      A failure of the integrator (a bad rk_order) leaves the clock alone. */
  method HandleExact<S(!new)>(o: ScheduledOutput, t0: real, t1: real, state: S, p: Physics<S>, order: int, ds: DriverState)
    returns (r: Result<Option<S>, string>)
    modifies ds
    ensures var next := old(ds.Value()).ClockOf(o.channel).nextTime;
      if !ExactDue(o, t0, t1, next) then
        r == Success(None) && ds.Value() == old(ds.Value())
      else if RkStep(order, p, state, next - t0).Failure? then
        r == Failure(RkOrderError) && ds.Value() == old(ds.Value())
      else
        r == Success(Some(RkStep(order, p, state, next - t0).value))
        && ds.Value() == old(ds.Value()).Advanced(o.channel, o.interval)
    ensures r.Success? && r.value.Some? && TimeConsistent(p) ==>
      GetTime(p, r.value.value, 0) == GetTime(p, state, 0) + (old(ds.Value()).ClockOf(o.channel).nextTime - t0)
  {
    var next := ds.Value().ClockOf(o.channel).nextTime;
    if o.policy == Exact && o.intervalKind == 0 {
      if t0 < next && t1 >= next {
        var exact := RkStep(order, p, state, next - t0);
        if exact.Failure? {
          return Failure(exact.error);
        }
        if TimeConsistent(p) {
          RkAdvancesTime(order, p, state, next - t0);
        }
        ds.Advance(o.channel, o.interval);
        return Success(Some(exact.value));
      }
    }
    r := Success(None);
  }

  /** handle_nearest_output: when the post-step state's time of the
      output's kind has reached the next output time, advances the clock
      once (even if several intervals were crossed) and hands that state
      to the callback. */
  method HandleNearest<S>(o: ScheduledOutput, state: S, p: Physics<S>, ds: DriverState) returns (fired: Option<S>)
    modifies ds
    ensures var next := old(ds.Value()).ClockOf(o.channel).nextTime;
      if NearestDue(o, GetTime(p, state, o.intervalKind), next) then
        fired == Some(state) && ds.Value() == old(ds.Value()).Advanced(o.channel, o.interval)
      else
        fired == None && ds.Value() == old(ds.Value())
  {
    fired := None;
    if o.policy == Nearest {
      if GetTime(p, state, o.intervalKind) >= ds.Value().ClockOf(o.channel).nextTime {
        ds.Advance(o.channel, o.interval);
        fired := Some(state);
      }
    }
  }
}
