/** The driver's configuration and main loop (include/mist/driver.hpp:
    166-187 and 343-481). Output callbacks are recorded as Emissions:
    which channel fired, the file number it would use (the channel's
    count when the callback runs) and the state it was handed; the
    time-series callback also accumulates the physics' sample into the
    driver state's table. */
module Driver {
  import opened Wrappers
  import opened Integrators
  import opened TimeseriesTable
  import opened DriverStates
  import opened Scheduling
  import opened Tracking
  import opened Passes

  // ---------------------------------------------------------------------
  // Configuration
  // ---------------------------------------------------------------------

  /** One channel's interval, time kind and scheduling policy text. */
  datatype ChannelConfig = ChannelConfig(interval: real, intervalKind: int, scheduling: string)

  /** driver::config_t. */
  datatype DriverConfig = DriverConfig(
    rkOrder: int,
    cfl: real,
    tFinal: real,
    maxIter: int,
    message: ChannelConfig,
    checkpoint: ChannelConfig,
    products: ChannelConfig,
    timeseries: ChannelConfig)
  {
    function ChannelOf(ch: Channel): ChannelConfig
    {
      match ch
      case Message => message
      case Checkpoint => checkpoint
      case Products => products
      case Series => timeseries
    }
  }

  /** The defaults of driver::config_t. */
  function DefaultConfig(): DriverConfig
  {
    DriverConfig(2, 0.4, 1.0, -1,
                 ChannelConfig(0.1, 0, "nearest"),
                 ChannelConfig(1.0, 0, "nearest"),
                 ChannelConfig(0.1, 0, "exact"),
                 ChannelConfig(0.01, 0, "exact"))
  }

  /** The scheduled_output of one channel; parsing its policy may fail. */
  function MakeOutput(cfg: DriverConfig, ch: Channel): (r: Result<ScheduledOutput, string>)
    ensures r.Success? <==> ParsePolicy(cfg.ChannelOf(ch).scheduling).Success?
    ensures r.Success? ==> r.value == ScheduledOutput(ch, cfg.ChannelOf(ch).interval, cfg.ChannelOf(ch).intervalKind,
                                                      ParsePolicy(cfg.ChannelOf(ch).scheduling).value)
  {
    var c := cfg.ChannelOf(ch);
    var policy :- ParsePolicy(c.scheduling);
    Success(ScheduledOutput(ch, c.interval, c.intervalKind, policy))
  }

  /** The four outputs, message, checkpoint, products, timeseries, built in
      that order; the first policy that does not parse is the error. */
  function MakeOutputs(cfg: DriverConfig): (r: Result<seq<ScheduledOutput>, string>)
    ensures r.Success? <==> forall ch :: MakeOutput(cfg, ch).Success?
    ensures r.Success? ==> |r.value| == 4 && forall i :: 0 <= i < 4 ==> MakeOutput(cfg, ChannelOrder[i]) == Success(r.value[i])
    ensures r.Failure? ==> r.error == PolicyError
  {
    var m :- MakeOutput(cfg, Message);
    var c :- MakeOutput(cfg, Checkpoint);
    var p :- MakeOutput(cfg, Products);
    var t :- MakeOutput(cfg, Series);
    Success([m, c, p, t])
  }

  lemma MakeOutputsWellFormed(cfg: DriverConfig)
    requires MakeOutputs(cfg).Success?
    ensures WellFormed(MakeOutputs(cfg).value)
    ensures forall i :: 0 <= i < 4 ==> MakeOutputs(cfg).value[i].interval == cfg.ChannelOf(ChannelOrder[i]).interval
  {
  }

  /** The outputs' validate() calls, in order. */
  method ValidateAll(outputs: seq<ScheduledOutput>) returns (r: Result<(), string>)
    ensures r.Success? <==> forall i :: 0 <= i < |outputs| ==> Validate(outputs[i]).Success?
    ensures r.Failure? ==> r.error == ValidateError
  {
    var i := 0;
    while i < |outputs|
      invariant 0 <= i <= |outputs|
      invariant forall k :: 0 <= k < i ==> Validate(outputs[k]).Success?
    {
      var v := Validate(outputs[i]);
      if v.Failure? {
        return Failure(v.error);
      }
      i := i + 1;
    }
    r := Success(());
  }

  /** The default configuration parses and validates. */
  lemma DefaultConfigValid()
    ensures MakeOutputs(DefaultConfig()).Success?
    ensures forall i :: 0 <= i < 4 ==> Validate(MakeOutputs(DefaultConfig()).value[i]).Success?
    ensures MakeOutputs(DefaultConfig()).value
         == [ScheduledOutput(Message, 0.1, 0, Nearest), ScheduledOutput(Checkpoint, 1.0, 0, Nearest),
             ScheduledOutput(Products, 0.1, 0, Exact), ScheduledOutput(Series, 0.01, 0, Exact)]
  {
  }

  /** Runs the callback of channel ch on state s. */
  method Fire<S>(ch: Channel, s: S, initial: bool, p: Physics<S>, ds: DriverState, es: seq<Emission<S>>)
    returns (es': seq<Emission<S>>)
    modifies ds
    ensures es' == es + [Emission(ch, old(ds.Value()).ClockOf(ch).count, s, initial)]
    ensures ds.Value() == if ch == Series
      then old(ds.Value()).(timeseriesData := Accumulated(old(ds.Value()).timeseriesData, TimeseriesSample(p, s)))
      else old(ds.Value())
    ensures (ds.Value(), es') == Fired(ch, s, initial, p, old(ds.Value()), es)
  {
    es' := es + [Emission(ch, ds.Value().ClockOf(ch).count, s, initial)];
    if ch == Series {
      ds.AccumulateTimeseriesSample(TimeseriesSample(p, s));
    }
  }

  // ---------------------------------------------------------------------
  // The two passes around a step
  // ---------------------------------------------------------------------

  /** One output's exact handler, with what its firing means for the
      tracked channels. */
  method ExactHandled<S(!new)>(outputs: seq<ScheduledOutput>, i: nat, t0: real, t1: real, state: S, p: Physics<S>,
                               order: int, ds: DriverState, es: seq<Emission<S>>, ghost firsts: seq<int>,
                               ghost onSchedule: bool)
    returns (r: Result<Option<S>, string>)
    requires WellFormed(outputs) && i < 4
    requires t0 == GetTime(p, state, 0)
    requires AllTracked(ds.Value(), outputs, es, firsts, onSchedule, p)
    modifies ds
    ensures r.Failure? ==> r.error == RkOrderError && !(order == 1 || order == 2 || order == 3)
    ensures var next := old(ds.Value()).ClockOf(outputs[i].channel).nextTime;
      && (r.Failure? <==> ExactDue(outputs[i], t0, t1, next) && !ValidOrder(order))
      && (r.Success? ==> (r.value.Some? <==> ExactDue(outputs[i], t0, t1, next)))
      && (r.Success? && r.value.Some? ==> r.value.value == RkStep(order, p, state, next - t0).value)
    ensures r.Success? && r.value.Some? ==>
      ds.Value() == old(ds.Value()).Advanced(outputs[i].channel, outputs[i].interval) &&
      AllTracked(ds.Value(), outputs, es + [Emission(outputs[i].channel, ds.Value().ClockOf(outputs[i].channel).count, r.value.value, false)],
                 firsts, onSchedule, p)
    ensures !(r.Success? && r.value.Some?) ==> ds.Value() == old(ds.Value())
  {
    ghost var before := ds.Value();
    r := HandleExact(outputs[i], t0, t1, state, p, order, ds);
    if r.Success? && r.value.Some? {
      ExactFiredTracked(before, ds.Value(), outputs, es, firsts, onSchedule, p, i, t0, t1, state, r.value.value);
    }
  }

  /** One output's exact handler and, when it fires, its callback. */
  method ExactOne<S(!new)>(outputs: seq<ScheduledOutput>, i: nat, t0: real, t1: real, state: S, p: Physics<S>, order: int,
                           ds: DriverState, es0: seq<Emission<S>>, ghost firsts: seq<int>, ghost onSchedule: bool,
                           ghost data0: seq<Column>)
    returns (r: Result<(), string>, es: seq<Emission<S>>)
    requires WellFormed(outputs) && i < 4
    requires t0 == GetTime(p, state, 0)
    requires AllTracked(ds.Value(), outputs, es0, firsts, onSchedule, p)
    requires ds.Value().timeseriesData == SeriesData(data0, es0, p)
    modifies ds
    ensures AllTracked(ds.Value(), outputs, es, firsts, onSchedule, p)
    ensures ds.Value().timeseriesData == SeriesData(data0, es, p)
    ensures es0 <= es
    ensures ds.Value().iteration == old(ds.Value().iteration)
    ensures r.Failure? ==> r.error == RkOrderError && !(order == 1 || order == 2 || order == 3)
    ensures Pass(r, ds.Value(), es) == ExactStep(outputs[i], t0, t1, state, p, order, old(ds.Value()), es0)
  {
    ghost var rec0 := ds.Value();
    ghost var step := ExactStep(outputs[i], t0, t1, state, p, order, rec0, es0);
    var fired := ExactHandled(outputs, i, t0, t1, state, p, order, ds, es0, firsts, onSchedule);
    es := es0;
    if fired.Failure? {
      assert step == Pass(Failure(RkOrderError), rec0, es0);
      return Failure(fired.error), es;
    }
    r := Success(());
    if fired.value.Some? {
      ghost var adv := ds.Value();
      es := FireScheduled(outputs[i].channel, fired.value.value, p, ds, es, data0, outputs, firsts, onSchedule);
      assert step == Pass(Success(()), Fired(outputs[i].channel, fired.value.value, false, p, adv, es0).0,
                          Fired(outputs[i].channel, fired.value.value, false, p, adv, es0).1);
    } else {
      assert step == Pass(Success(()), rec0, es0);
    }
  }

  /** Every output's exact handler, in order, before the step. */
  method ExactPass<S(!new)>(outputs: seq<ScheduledOutput>, t0: real, t1: real, state: S, p: Physics<S>, order: int,
                            ds: DriverState, es0: seq<Emission<S>>, ghost firsts: seq<int>, ghost onSchedule: bool,
                            ghost data0: seq<Column>)
    returns (r: Result<(), string>, es: seq<Emission<S>>)
    requires WellFormed(outputs)
    requires t0 == GetTime(p, state, 0)
    requires AllTracked(ds.Value(), outputs, es0, firsts, onSchedule, p)
    requires ds.Value().timeseriesData == SeriesData(data0, es0, p)
    modifies ds
    ensures AllTracked(ds.Value(), outputs, es, firsts, onSchedule, p)
    ensures ds.Value().timeseriesData == SeriesData(data0, es, p)
    ensures es0 <= es
    ensures ds.Value().iteration == old(ds.Value().iteration)
    ensures r.Failure? ==> r.error == RkOrderError && !(order == 1 || order == 2 || order == 3)
    ensures Pass(r, ds.Value(), es) == ExactPassOf(outputs, |outputs|, t0, t1, state, p, order, old(ds.Value()), es0)
  {
    es := es0;
    var i := 0;
    while i < 4
      invariant 0 <= i <= 4
      invariant AllTracked(ds.Value(), outputs, es, firsts, onSchedule, p)
      invariant ds.Value().timeseriesData == SeriesData(data0, es, p)
      invariant es0 <= es
      invariant ds.Value().iteration == old(ds.Value().iteration)
      invariant Pass(Success(()), ds.Value(), es) == ExactPassOf(outputs, i, t0, t1, state, p, order, old(ds.Value()), es0)
    {
      r, es := ExactOne(outputs, i, t0, t1, state, p, order, ds, es, firsts, onSchedule, data0);
      if r.Failure? {
        ExactPassStops(outputs, i + 1, |outputs|, t0, t1, state, p, order, old(ds.Value()), es0);
        return;
      }
      i := i + 1;
    }
    r := Success(());
  }

  /** A handler's callback: the emission and, for the time series, the
      accumulation, keeping the table equal to SeriesData. */
  method FireScheduled<S(!new)>(ch: Channel, s: S, p: Physics<S>, ds: DriverState, es: seq<Emission<S>>,
                                ghost data0: seq<Column>, ghost outputs: seq<ScheduledOutput>, ghost firsts: seq<int>,
                                ghost onSchedule: bool)
    returns (es': seq<Emission<S>>)
    requires ds.Value().timeseriesData == SeriesData(data0, es, p)
    requires AllTracked(ds.Value(), outputs, es + [Emission(ch, ds.Value().ClockOf(ch).count, s, false)], firsts, onSchedule, p)
    modifies ds
    ensures es' == es + [Emission(ch, old(ds.Value()).ClockOf(ch).count, s, false)]
    ensures (ds.Value(), es') == Fired(ch, s, false, p, old(ds.Value()), es)
    ensures ds.Value().timeseriesData == SeriesData(data0, es', p)
    ensures AllTracked(ds.Value(), outputs, es', firsts, onSchedule, p)
    ensures ds.Value().iteration == old(ds.Value().iteration)
  {
    ghost var before := ds.Value();
    es' := Fire(ch, s, false, p, ds, es);
    SeriesDataSnoc(data0, es, Emission(ch, before.ClockOf(ch).count, s, false), p);
    SameClocksKeepTracked(before, ds.Value(), outputs, es', firsts, onSchedule, p);
  }

  /** One output's nearest handler and, when it fires, its callback. */
  method NearestOne<S(!new)>(outputs: seq<ScheduledOutput>, i: nat, state: S, p: Physics<S>, ds: DriverState,
                             es0: seq<Emission<S>>, ghost firsts: seq<int>, ghost onSchedule: bool,
                             ghost data0: seq<Column>)
    returns (es: seq<Emission<S>>)
    requires WellFormed(outputs) && i < 4
    requires AllTracked(ds.Value(), outputs, es0, firsts, onSchedule, p)
    requires ds.Value().timeseriesData == SeriesData(data0, es0, p)
    modifies ds
    ensures AllTracked(ds.Value(), outputs, es, firsts, onSchedule, p)
    ensures ds.Value().timeseriesData == SeriesData(data0, es, p)
    ensures es0 <= es
    ensures ds.Value().iteration == old(ds.Value().iteration)
    ensures (ds.Value(), es) == NearestStep(outputs[i], state, p, old(ds.Value()), es0)
  {
    ghost var before := ds.Value();
    var fired := HandleNearest(outputs[i], state, p, ds);
    es := es0;
    if fired.Some? {
      NearestFiredTracked(before, ds.Value(), outputs, es, firsts, onSchedule, p, i, state);
      es := FireScheduled(outputs[i].channel, state, p, ds, es, data0, outputs, firsts, onSchedule);
    }
  }

  /** Every output's nearest handler, in order, after the step. */
  method NearestPass<S(!new)>(outputs: seq<ScheduledOutput>, state: S, p: Physics<S>, ds: DriverState,
                              es0: seq<Emission<S>>, ghost firsts: seq<int>, ghost onSchedule: bool,
                              ghost data0: seq<Column>)
    returns (es: seq<Emission<S>>)
    requires WellFormed(outputs)
    requires AllTracked(ds.Value(), outputs, es0, firsts, onSchedule, p)
    requires ds.Value().timeseriesData == SeriesData(data0, es0, p)
    modifies ds
    ensures AllTracked(ds.Value(), outputs, es, firsts, onSchedule, p)
    ensures ds.Value().timeseriesData == SeriesData(data0, es, p)
    ensures es0 <= es
    ensures ds.Value().iteration == old(ds.Value().iteration)
    ensures (ds.Value(), es) == NearestPassOf(outputs, |outputs|, state, p, old(ds.Value()), es0)
  {
    es := es0;
    var i := 0;
    while i < 4
      invariant 0 <= i <= 4
      invariant AllTracked(ds.Value(), outputs, es, firsts, onSchedule, p)
      invariant ds.Value().timeseriesData == SeriesData(data0, es, p)
      invariant es0 <= es
      invariant ds.Value().iteration == old(ds.Value().iteration)
      invariant (ds.Value(), es) == NearestPassOf(outputs, i, state, p, old(ds.Value()), es0)
    {
      es := NearestOne(outputs, i, state, p, ds, es, firsts, onSchedule, data0);
      i := i + 1;
    }
  }

  // ---------------------------------------------------------------------
  // The run
  // ---------------------------------------------------------------------

  /** The scheduling set-up of a first run (iteration 0): every next time
      is one interval; a resumed run keeps its clocks. Counts are kept. */
  function Started(rec: Record, cfg: DriverConfig): (r: Record)
    ensures forall ch :: r.ClockOf(ch).count == rec.ClockOf(ch).count
    ensures forall ch :: rec.iteration == 0 ==> r.ClockOf(ch).nextTime == cfg.ChannelOf(ch).interval
    ensures rec.iteration != 0 ==> r == rec
    ensures r.iteration == rec.iteration && r.timeseriesData == rec.timeseriesData
  {
    if rec.iteration == 0 then
      rec.(message := Clock(rec.message.count, cfg.message.interval),
           checkpoint := Clock(rec.checkpoint.count, cfg.checkpoint.interval),
           products := Clock(rec.products.count, cfg.products.interval),
           series := Clock(rec.series.count, cfg.timeseries.interval))
    else rec
  }

  /** if (driver_state.iteration == 0) { next_*_time = *_interval; } */
  method InitSchedule(cfg: DriverConfig, ds: DriverState)
    modifies ds
    ensures ds.Value() == Started(old(ds.Value()), cfg)
  {
    if ds.iteration == 0 {
      ds.nextMessageTime := cfg.message.interval;
      ds.nextCheckpointTime := cfg.checkpoint.interval;
      ds.nextProductsTime := cfg.products.interval;
      ds.nextTimeseriesTime := cfg.timeseries.interval;
    }
  }

  /** Both steps of parsing and validating the configured outputs succeed. */
  predicate Configured(cfg: DriverConfig)
  {
    MakeOutputs(cfg).Success? && forall i :: 0 <= i < 4 ==> Validate(MakeOutputs(cfg).value[i]).Success?
  }

  /** The record the main loop starts from: Started, and after a first
      run's initial outputs, the initial state's sample in the table. */
  function Begun<S>(rec: Record, cfg: DriverConfig, p: Physics<S>): Record
  {
    var start := Started(rec, cfg);
    if rec.iteration == 0
    then start.(timeseriesData := Accumulated(start.timeseriesData, TimeseriesSample(p, p.initialState)))
    else start
  }

  /** The outputs' callbacks on the initial state, outputs 1 to 3. */
  method InitialOutputs<S>(outputs: seq<ScheduledOutput>, s: S, p: Physics<S>, ds: DriverState)
    returns (es: seq<Emission<S>>)
    requires WellFormed(outputs)
    modifies ds
    ensures es == InitialEmissions(old(ds.Value()), s)
    ensures ds.Value() == old(ds.Value()).(timeseriesData := Accumulated(old(ds.Value()).timeseriesData, TimeseriesSample(p, s)))
  {
    es := [];
    for i := 1 to 4
      invariant es == InitialEmissions(old(ds.Value()), s)[..i - 1]
      invariant ds.Value() == if i < 4 then old(ds.Value())
        else old(ds.Value()).(timeseriesData := Accumulated(old(ds.Value()).timeseriesData, TimeseriesSample(p, s)))
    {
      es := Fire(outputs[i].channel, s, true, p, ds, es);
    }
  }

  /** A default-constructed driver state, set up for its first run, is on
      schedule: the guarantees of Tracked hold for every output. */
  lemma FreshStartOnSchedule(cfg: DriverConfig)
    requires MakeOutputs(cfg).Success?
    ensures ClocksOnSchedule(Started(FreshRecord(), cfg), MakeOutputs(cfg).value)
  {
    var outputs := MakeOutputs(cfg).value;
    MakeOutputsWellFormed(cfg);
    forall i | 0 <= i < 4
      ensures Started(FreshRecord(), cfg).ClockOf(outputs[i].channel).nextTime == Multiple(outputs[i].interval, 1)
    {
      assert Multiple(outputs[i].interval, 1) == outputs[i].interval;
    }
  }

  /** The main loop's time step: cfl times the Courant time. */
  function TimeStep<S>(cfg: DriverConfig, p: Physics<S>, s: S): real
  {
    cfg.cfl * p.courantTime(s)
  }

  /** One iteration of the main loop's integration, with the configured
      order and the CFL-limited time step. */
  function Step<S>(cfg: DriverConfig, p: Physics<S>, s: S): Result<S, string>
  {
    RkStep(cfg.rkOrder, p, s, TimeStep(cfg, p, s))
  }

  /** The states a main loop passed through, from s0: each but the last
      was before t_final and was followed by its step. */
  ghost predicate Ran<S>(cfg: DriverConfig, p: Physics<S>, s0: S, trace: seq<S>)
  {
    |trace| >= 1 && trace[0] == s0 &&
    forall k :: 0 <= k < |trace| - 1 ==>
      GetTime(p, trace[k], 0) < cfg.tFinal && Step(cfg, p, trace[k]) == Success(trace[k + 1])
  }

  /** Under a physics that keeps time consistently, every pass advances
      simulation time by cfl times the Courant time. */
  lemma RanAdvancesTime<S(!new)>(cfg: DriverConfig, p: Physics<S>, s0: S, trace: seq<S>, k: nat)
    requires TimeConsistent(p)
    requires Ran(cfg, p, s0, trace) && k < |trace| - 1
    ensures GetTime(p, trace[k + 1], 0) == GetTime(p, trace[k], 0) + TimeStep(cfg, p, trace[k])
  {
    assert Step(cfg, p, trace[k]) == Success(trace[k + 1]);
    RkAdvancesTime(cfg.rkOrder, p, trace[k], TimeStep(cfg, p, trace[k]));
  }

  /** A run is determined by its start: two runs from one state agree on
      every state both reached. */
  lemma {:induction false} RanDetermined<S>(cfg: DriverConfig, p: Physics<S>, s0: S, a: seq<S>, b: seq<S>, k: nat)
    requires Ran(cfg, p, s0, a) && Ran(cfg, p, s0, b)
    requires k < |a| && k < |b|
    ensures a[k] == b[k]
  {
    if k > 0 {
      RanDetermined(cfg, p, s0, a, b, k - 1);
      assert Step(cfg, p, a[k - 1]) == Success(a[k]);
      assert Step(cfg, p, b[k - 1]) == Success(b[k]);
    }
  }

  /** A pass from the last state, once the loop's checks have let it
      through, extends the run. */
  lemma RanStep<S>(cfg: DriverConfig, p: Physics<S>, s0: S, trace: seq<S>, next: S)
    requires Ran(cfg, p, s0, trace)
    requires GetTime(p, trace[|trace| - 1], 0) < cfg.tFinal
    requires Step(cfg, p, trace[|trace| - 1]) == Success(next)
    ensures Ran(cfg, p, s0, trace + [next])
  {
    var t := trace + [next];
    forall k | 0 <= k < |t| - 1
      ensures GetTime(p, t[k], 0) < cfg.tFinal && Step(cfg, p, t[k]) == Success(t[k + 1])
    {
      if k < |trace| - 1 {
        assert t[k] == trace[k] && t[k + 1] == trace[k + 1];
      }
    }
  }

  /** Why the main loop stopped. The source's loop has no bound; the model's
      stops after a given number of passes (FuelExhausted). */
  datatype Stop = FinalTimeReached | MaxIterReached | FuelExhausted

  datatype RunResult<S> = RunResult(state: S, stop: Stop)

  /** What a main loop started at state s0 and iteration iter0 and ended at
      iteration iter with result res did: one pass per iteration, through
      the states of trace, never beyond max_iter, ending at the last of
      them for the reason it gives. */
  ghost predicate Ended<S>(cfg: DriverConfig, p: Physics<S>, s0: S, iter0: int, iter: int, fuel: nat, trace: seq<S>,
                           res: RunResult<S>)
  {
    Ran(cfg, p, s0, trace) &&
    |trace| == iter - iter0 + 1 &&
    res.state == trace[|trace| - 1] &&
    (cfg.maxIter > 0 && iter0 <= cfg.maxIter ==> iter <= cfg.maxIter) &&
    (res.stop == FinalTimeReached ==> GetTime(p, res.state, 0) >= cfg.tFinal) &&
    (res.stop == MaxIterReached ==> cfg.maxIter > 0 && iter >= cfg.maxIter) &&
    (res.stop == FuelExhausted ==> iter == iter0 + fuel)
  }

  /** The first half of a pass, from a state, a record and the callbacks
      so far: the exact handlers over [t0, t0 + dt], then, when none of
      them failed, the step and iteration++. It gives the new state or
      the integrator's error, the record and the callbacks. */
  function ExactThenStepOf<S>(cfg: DriverConfig, outputs: seq<ScheduledOutput>, state: S, p: Physics<S>, rec: Record,
                              es: seq<Emission<S>>): (Result<S, string>, Record, seq<Emission<S>>)
  {
    var t0 := GetTime(p, state, 0);
    var dt := TimeStep(cfg, p, state);
    var exact := ExactPassOf(outputs, |outputs|, t0, t0 + dt, state, p, cfg.rkOrder, rec, es);
    if exact.ok.Failure? then (Failure(exact.ok.error), exact.rec, exact.es)
    else
      match RkStep(cfg.rkOrder, p, state, dt)
      case Failure(e) => (Failure(e), exact.rec, exact.es)
      case Success(next) => (Success(next), exact.rec.(iteration := exact.rec.iteration + 1), exact.es)
  }

  /** One whole pass of the main loop past its two checks: the first half,
      then the nearest handlers on the new state. */
  function PassOf<S>(cfg: DriverConfig, outputs: seq<ScheduledOutput>, state: S, p: Physics<S>, rec: Record,
                     es: seq<Emission<S>>): (Result<S, string>, Record, seq<Emission<S>>)
  {
    var half := ExactThenStepOf(cfg, outputs, state, p, rec, es);
    if half.0.Failure? then half
    else
      var nearest := NearestPassOf(outputs, |outputs|, half.0.value, p, half.1, half.2);
      (half.0, nearest.0, nearest.1)
  }

  /** What one pass does, for every input: with an invalid order it fails
      with nothing fired; otherwise it takes the step and appends, in this
      order, the callbacks of the exact outputs due over [t0, t0 + dt] and
      then those of the nearest outputs due on the new state, each judged
      against the clocks the pass started from, in index order. Each of
      those outputs' clocks moves on once, no other clock moves, the
      iteration goes up by one and the table takes exactly the timeseries
      callbacks. */
  lemma PassFires<S>(cfg: DriverConfig, outputs: seq<ScheduledOutput>, state: S, p: Physics<S>, rec: Record,
                     es: seq<Emission<S>>)
    requires WellFormed(outputs)
    ensures PassOf(cfg, outputs, state, p, rec, es).0.Failure? <==> !ValidOrder(cfg.rkOrder)
    ensures PassOf(cfg, outputs, state, p, rec, es).0.Failure? ==>
      PassOf(cfg, outputs, state, p, rec, es) == (Failure(RkOrderError), rec, es)
    ensures var q := PassOf(cfg, outputs, state, p, rec, es);
      var t0 := GetTime(p, state, 0);
      var t1 := t0 + TimeStep(cfg, p, state);
      q.0.Success? ==>
        && ValidOrder(cfg.rkOrder)
        && q.0 == Step(cfg, p, state)
        && q.2 == es + ExactEmissions(outputs, |outputs|, t0, t1, state, p, cfg.rkOrder, rec)
                     + NearestEmissions(outputs, |outputs|, q.0.value, p, rec)
        && q.1.iteration == rec.iteration + 1
        && q.1.timeseriesData
           == SeriesData(rec.timeseriesData, ExactEmissions(outputs, |outputs|, t0, t1, state, p, cfg.rkOrder, rec)
                                             + NearestEmissions(outputs, |outputs|, q.0.value, p, rec), p)
        && forall j :: 0 <= j < 4 ==>
             q.1.ClockOf(outputs[j].channel)
             == ClockAfter(rec.ClockOf(outputs[j].channel), outputs[j],
                           ExactDue(outputs[j], t0, t1, rec.ClockOf(outputs[j].channel).nextTime) ||
                           NearestDue(outputs[j], GetTime(p, q.0.value, outputs[j].intervalKind),
                                      rec.ClockOf(outputs[j].channel).nextTime))
  {
    var t0 := GetTime(p, state, 0);
    var dt := TimeStep(cfg, p, state);
    var t1 := t0 + dt;
    var order := cfg.rkOrder;
    if !ValidOrder(order) {
      ExactPassRejects(outputs, |outputs|, t0, t1, state, p, order, rec, es);
    } else {
      ExactPassFires(outputs, |outputs|, t0, t1, state, p, order, rec, es);
      var exact := ExactPassOf(outputs, |outputs|, t0, t1, state, p, order, rec, es);
      var next := RkStep(order, p, state, dt).value;
      var mid := exact.rec.(iteration := exact.rec.iteration + 1);
      var fromExact := ExactEmissions(outputs, |outputs|, t0, t1, state, p, order, rec);
      NearestPassFires(outputs, |outputs|, next, p, mid, exact.es);
      var nearest := NearestPassOf(outputs, |outputs|, next, p, mid, exact.es);
      assert PassOf(cfg, outputs, state, p, rec, es) == (Success(next), nearest.0, nearest.1);
      forall j | 0 <= j < 4 && outputs[j].policy == Nearest
        ensures mid.ClockOf(outputs[j].channel) == rec.ClockOf(outputs[j].channel)
      {
        assert !ExactDue(outputs[j], t0, t1, rec.ClockOf(outputs[j].channel).nextTime);
      }
      NearestEmissionsSameClocks(outputs, |outputs|, next, p, rec, mid);
      var fromNearest := NearestEmissions(outputs, |outputs|, next, p, rec);
      SeriesDataAppend(rec.timeseriesData, fromExact, fromNearest, p);
      forall j | 0 <= j < 4
        ensures PassOf(cfg, outputs, state, p, rec, es).1.ClockOf(outputs[j].channel)
             == ClockAfter(rec.ClockOf(outputs[j].channel), outputs[j],
                           ExactDue(outputs[j], t0, t1, rec.ClockOf(outputs[j].channel).nextTime) ||
                           NearestDue(outputs[j], GetTime(p, next, outputs[j].intervalKind),
                                      rec.ClockOf(outputs[j].channel).nextTime))
      {
        PoliciesExclusive(outputs[j], t0, t1, GetTime(p, next, outputs[j].intervalKind),
                          rec.ClockOf(outputs[j].channel).nextTime);
      }
    }
  }

  /** The records and callbacks of a main loop through the states of
      trace: pass k took state k, record k and callbacks k to state k + 1,
      record k + 1 and callbacks k + 1. */
  ghost predicate Passed<S>(cfg: DriverConfig, outputs: seq<ScheduledOutput>, p: Physics<S>, trace: seq<S>,
                            recs: seq<Record>, logs: seq<seq<Emission<S>>>)
  {
    |trace| >= 1 && |recs| == |trace| && |logs| == |trace| &&
    forall k :: 0 <= k < |trace| - 1 ==>
      PassOf(cfg, outputs, trace[k], p, recs[k], logs[k]) == (Success(trace[k + 1]), recs[k + 1], logs[k + 1])
  }

  /** A further pass extends the loop's record. */
  lemma PassedStep<S>(cfg: DriverConfig, outputs: seq<ScheduledOutput>, p: Physics<S>, trace: seq<S>,
                      recs: seq<Record>, logs: seq<seq<Emission<S>>>, next: S, rec: Record, es: seq<Emission<S>>)
    requires Passed(cfg, outputs, p, trace, recs, logs)
    requires PassOf(cfg, outputs, trace[|trace| - 1], p, recs[|recs| - 1], logs[|logs| - 1]) == (Success(next), rec, es)
    ensures Passed(cfg, outputs, p, trace + [next], recs + [rec], logs + [es])
  {
    var t, rs, ls := trace + [next], recs + [rec], logs + [es];
    forall k | 0 <= k < |t| - 1
      ensures PassOf(cfg, outputs, t[k], p, rs[k], ls[k]) == (Success(t[k + 1]), rs[k + 1], ls[k + 1])
    {
      if k < |trace| - 1 {
        assert t[k] == trace[k] && t[k + 1] == trace[k + 1];
        assert rs[k] == recs[k] && rs[k + 1] == recs[k + 1];
        assert ls[k] == logs[k] && ls[k + 1] == logs[k + 1];
      }
    }
  }

  /** The callbacks of a pass that took its step, in the terms of
      PassFires. */
  lemma PassEmissions<S>(cfg: DriverConfig, outputs: seq<ScheduledOutput>, state: S, p: Physics<S>, rec: Record,
                         es: seq<Emission<S>>, r: Result<S, string>, after: Record, es2: seq<Emission<S>>)
    requires WellFormed(outputs)
    requires (r, after, es2) == PassOf(cfg, outputs, state, p, rec, es)
    ensures r.Success? ==>
      var t0 := GetTime(p, state, 0);
      ValidOrder(cfg.rkOrder) &&
      es2 == es + ExactEmissions(outputs, |outputs|, t0, t0 + TimeStep(cfg, p, state), state, p, cfg.rkOrder, rec)
                + NearestEmissions(outputs, |outputs|, r.value, p, rec)
  {
    PassFires(cfg, outputs, state, p, rec, es);
  }

  /** The main loop after n passes from s0, record rec0 and callbacks es0:
      the states, records and callbacks it went through, the last of them
      the current ones. */
  ghost predicate Looped<S>(cfg: DriverConfig, outputs: seq<ScheduledOutput>, p: Physics<S>, s0: S, rec0: Record,
                            es0: seq<Emission<S>>, n: nat, trace: seq<S>, recs: seq<Record>, logs: seq<seq<Emission<S>>>,
                            state: S, rec: Record, es: seq<Emission<S>>)
  {
    Ran(cfg, p, s0, trace) && |trace| == n + 1 &&
    Passed(cfg, outputs, p, trace, recs, logs) && recs[0] == rec0 && logs[0] == es0 &&
    trace[n] == state && recs[n] == rec && logs[n] == es
  }

  /** A pass the loop's checks let through extends it. */
  lemma LoopedStep<S>(cfg: DriverConfig, outputs: seq<ScheduledOutput>, p: Physics<S>, s0: S, rec0: Record,
                      es0: seq<Emission<S>>, n: nat, trace: seq<S>, recs: seq<Record>, logs: seq<seq<Emission<S>>>,
                      state: S, rec: Record, es: seq<Emission<S>>, next: S, rec': Record, es': seq<Emission<S>>)
    requires Looped(cfg, outputs, p, s0, rec0, es0, n, trace, recs, logs, state, rec, es)
    requires GetTime(p, state, 0) < cfg.tFinal && Step(cfg, p, state) == Success(next)
    requires PassOf(cfg, outputs, state, p, rec, es) == (Success(next), rec', es')
    ensures Looped(cfg, outputs, p, s0, rec0, es0, n + 1, trace + [next], recs + [rec'], logs + [es'], next, rec', es')
  {
    RanStep(cfg, p, s0, trace, next);
    PassedStep(cfg, outputs, p, trace, recs, logs, next, rec', es');
  }

  /** The first half of a pass: the exact handlers over [t0, t0 + dt],
      then, when none of them failed, the step and iteration++. */
  method ExactThenStep<S(!new)>(cfg: DriverConfig, outputs: seq<ScheduledOutput>, state: S, p: Physics<S>,
                                ds: DriverState, es0: seq<Emission<S>>, ghost firsts: seq<int>,
                                ghost onSchedule: bool, ghost data0: seq<Column>)
    returns (r: Result<S, string>, es: seq<Emission<S>>)
    requires WellFormed(outputs)
    requires AllTracked(ds.Value(), outputs, es0, firsts, onSchedule, p)
    requires ds.Value().timeseriesData == SeriesData(data0, es0, p)
    modifies ds
    ensures AllTracked(ds.Value(), outputs, es, firsts, onSchedule, p)
    ensures ds.Value().timeseriesData == SeriesData(data0, es, p)
    ensures es0 <= es
    ensures r.Failure? ==> r.error == RkOrderError && !(cfg.rkOrder == 1 || cfg.rkOrder == 2 || cfg.rkOrder == 3)
    ensures ds.Value().iteration == old(ds.Value().iteration) + if r.Success? then 1 else 0
    ensures (r, ds.Value(), es) == ExactThenStepOf(cfg, outputs, state, p, old(ds.Value()), es0)
  {
    var t0 := GetTime(p, state, 0);
    var dt := TimeStep(cfg, p, state);
    var exact;
    exact, es := ExactPass(outputs, t0, t0 + dt, state, p, cfg.rkOrder, ds, es0, firsts, onSchedule, data0);
    if exact.Failure? {
      return Failure(exact.error), es;
    }
    r := RkStep(cfg.rkOrder, p, state, dt);
    if r.Failure? {
      return;
    }
    ghost var before := ds.Value();
    ds.CountIteration();
    SameClocksKeepTracked(before, ds.Value(), outputs, es, firsts, onSchedule, p);
  }

  /** One pass of the main loop past its two checks: the exact handlers
      over [t0, t0 + dt], the step, iteration++, the nearest handlers on
      the new state. */
  method Iteration<S(!new)>(cfg: DriverConfig, outputs: seq<ScheduledOutput>, state: S, p: Physics<S>, ds: DriverState,
                            es0: seq<Emission<S>>, ghost firsts: seq<int>, ghost onSchedule: bool,
                            ghost data0: seq<Column>, ghost s0: S, ghost trace: seq<S>)
    returns (r: Result<S, string>, es: seq<Emission<S>>)
    requires WellFormed(outputs)
    requires Ran(cfg, p, s0, trace) && trace[|trace| - 1] == state && GetTime(p, state, 0) < cfg.tFinal
    requires AllTracked(ds.Value(), outputs, es0, firsts, onSchedule, p)
    requires ds.Value().timeseriesData == SeriesData(data0, es0, p)
    modifies ds
    ensures AllTracked(ds.Value(), outputs, es, firsts, onSchedule, p)
    ensures ds.Value().timeseriesData == SeriesData(data0, es, p)
    ensures es0 <= es
    ensures r.Failure? ==> r.error == RkOrderError && !(cfg.rkOrder == 1 || cfg.rkOrder == 2 || cfg.rkOrder == 3)
    ensures r.Success? ==> Ran(cfg, p, s0, trace + [r.value]) && ds.Value().iteration == old(ds.Value().iteration) + 1
    ensures (r, ds.Value(), es) == PassOf(cfg, outputs, state, p, old(ds.Value()), es0)
    ensures r.Success? ==>
      var t0 := GetTime(p, state, 0);
      ValidOrder(cfg.rkOrder) &&
      es == es0 + ExactEmissions(outputs, |outputs|, t0, t0 + TimeStep(cfg, p, state), state, p, cfg.rkOrder, old(ds.Value()))
                + NearestEmissions(outputs, |outputs|, r.value, p, old(ds.Value()))
  {
    ghost var rec0 := ds.Value();
    r, es := ExactThenStep(cfg, outputs, state, p, ds, es0, firsts, onSchedule, data0);
    if r.Failure? {
      return;
    }
    RanStep(cfg, p, s0, trace, r.value);
    ghost var mid := ds.Value();
    ghost var es1 := es;
    es := NearestPass(outputs, r.value, p, ds, es, firsts, onSchedule, data0);
    PassEmissions(cfg, outputs, state, p, rec0, es0, r, ds.Value(), es);
  }

  /** The main loop: stop at t_final or at max_iter; otherwise the exact
      handlers over [t0, t0 + dt], one step, iteration++, the nearest
      handlers on the new state. At most fuel passes are made. */
  method Evolve<S(!new)>(cfg: DriverConfig, outputs: seq<ScheduledOutput>, s0: S, p: Physics<S>, ds: DriverState,
                         es0: seq<Emission<S>>, fuel: nat, ghost firsts: seq<int>, ghost onSchedule: bool,
                         ghost data0: seq<Column>)
    returns (r: Result<RunResult<S>, string>, es: seq<Emission<S>>, ghost trace: seq<S>, ghost recs: seq<Record>,
             ghost logs: seq<seq<Emission<S>>>)
    requires WellFormed(outputs)
    requires AllTracked(ds.Value(), outputs, es0, firsts, onSchedule, p)
    requires ds.Value().timeseriesData == SeriesData(data0, es0, p)
    modifies ds
    ensures AllTracked(ds.Value(), outputs, es, firsts, onSchedule, p)
    ensures ds.Value().timeseriesData == SeriesData(data0, es, p)
    ensures es0 <= es
    ensures r.Failure? ==> r.error == RkOrderError && !(cfg.rkOrder == 1 || cfg.rkOrder == 2 || cfg.rkOrder == 3)
    ensures r.Success? ==> Ended(cfg, p, s0, old(ds.Value().iteration), ds.Value().iteration, fuel, trace, r.value)
    ensures r.Success? && !(cfg.rkOrder == 1 || cfg.rkOrder == 2 || cfg.rkOrder == 3) ==>
      ds.Value().iteration == old(ds.Value().iteration)
    ensures Passed(cfg, outputs, p, trace, recs, logs) && trace[0] == s0 && recs[0] == old(ds.Value()) && logs[0] == es0
    ensures r.Success? ==> recs[|recs| - 1] == ds.Value() && logs[|logs| - 1] == es
    ensures r.Failure? ==>
      PassOf(cfg, outputs, trace[|trace| - 1], p, recs[|recs| - 1], logs[|logs| - 1]) == (Failure(r.error), ds.Value(), es)
  {
    ghost var iter0 := ds.iteration;
    var state := s0;
    es := es0;
    trace := [s0];
    recs := [ds.Value()];
    logs := [es0];
    var n := 0;
    while n < fuel
      invariant 0 <= n <= fuel
      invariant ds.Value().iteration == iter0 + n
      invariant Looped(cfg, outputs, p, s0, old(ds.Value()), es0, n, trace, recs, logs, state, ds.Value(), es)
      invariant cfg.maxIter > 0 && iter0 <= cfg.maxIter ==> iter0 + n <= cfg.maxIter
      invariant !(cfg.rkOrder == 1 || cfg.rkOrder == 2 || cfg.rkOrder == 3) ==> n == 0
      invariant AllTracked(ds.Value(), outputs, es, firsts, onSchedule, p)
      invariant ds.Value().timeseriesData == SeriesData(data0, es, p)
      invariant es0 <= es
    {
      var t0 := GetTime(p, state, 0);
      if t0 >= cfg.tFinal {
        return Success(RunResult(state, FinalTimeReached)), es, trace, recs, logs;
      }
      if cfg.maxIter > 0 && ds.iteration >= cfg.maxIter {
        return Success(RunResult(state, MaxIterReached)), es, trace, recs, logs;
      }
      var next;
      ghost var rec := ds.Value();
      ghost var es1 := es;
      next, es := Iteration(cfg, outputs, state, p, ds, es, firsts, onSchedule, data0, s0, trace);
      if next.Failure? {
        return Failure(next.error), es, trace, recs, logs;
      }
      LoopedStep(cfg, outputs, p, s0, old(ds.Value()), es0, n, trace, recs, logs, state, rec, es1, next.value,
                 ds.Value(), es);
      state := next.value;
      trace := trace + [state];
      recs := recs + [ds.Value()];
      logs := logs + [es];
      n := n + 1;
    }
    r := Success(RunResult(state, FuelExhausted));
  }

  /** driver::run: the initial state; a first run's clock set-up; the
      four outputs, whose policies must parse and validate; a first run's
      initial outputs; then the main loop. The callbacks made are
      returned, in order, as emissions. */
  method Run<S(!new)>(cfg: DriverConfig, p: Physics<S>, ds: DriverState, fuel: nat)
    returns (r: Result<RunResult<S>, string>, emissions: seq<Emission<S>>, ghost trace: seq<S>, ghost recs: seq<Record>,
             ghost logs: seq<seq<Emission<S>>>)
    modifies ds
    ensures MakeOutputs(cfg).Failure? ==>
      r == Failure(PolicyError) && emissions == [] && ds.Value() == Started(old(ds.Value()), cfg)
    ensures MakeOutputs(cfg).Success? && !Configured(cfg) ==>
      r == Failure(ValidateError) && emissions == [] && ds.Value() == Started(old(ds.Value()), cfg)
    ensures Configured(cfg) && (cfg.rkOrder == 1 || cfg.rkOrder == 2 || cfg.rkOrder == 3) ==> r.Success?
    ensures Configured(cfg) && r.Failure? ==> r.error == RkOrderError
    ensures Configured(cfg) && old(ds.Value().iteration) == 0 ==>
      |emissions| >= 3 && emissions[..3] == InitialEmissions(old(ds.Value()), p.initialState)
    ensures Configured(cfg) ==>
      var start := Started(old(ds.Value()), cfg);
      AllTracked(ds.Value(), MakeOutputs(cfg).value, emissions, Firsts(start, start.iteration == 0),
                 ClocksOnSchedule(start, MakeOutputs(cfg).value), p)
    ensures Configured(cfg) ==> ds.Value().timeseriesData == SeriesData(old(ds.Value().timeseriesData), emissions, p)
    ensures r.Success? ==> Ended(cfg, p, p.initialState, old(ds.Value().iteration), ds.Value().iteration, fuel, trace, r.value)
    ensures Configured(cfg) ==>
      && Passed(cfg, MakeOutputs(cfg).value, p, trace, recs, logs)
      && trace[0] == p.initialState
      && recs[0] == Begun(old(ds.Value()), cfg, p)
      && logs[0] == (if old(ds.Value().iteration) == 0 then InitialEmissions(old(ds.Value()), p.initialState) else [])
      && (r.Success? ==> recs[|recs| - 1] == ds.Value() && logs[|logs| - 1] == emissions)
      && (r.Failure? ==>
            PassOf(cfg, MakeOutputs(cfg).value, trace[|trace| - 1], p, recs[|recs| - 1], logs[|logs| - 1])
            == (Failure(r.error), ds.Value(), emissions))
  {
    ghost var data0 := ds.timeseriesData;
    var state := p.initialState;
    InitSchedule(cfg, ds);
    ghost var start := ds.Value();
    emissions := [];
    var made := MakeOutputs(cfg);
    if made.Failure? {
      return Failure(made.error), emissions, [], [], [];
    }
    var outputs := made.value;
    MakeOutputsWellFormed(cfg);
    var valid := ValidateAll(outputs);
    if valid.Failure? {
      return Failure(valid.error), emissions, [], [], [];
    }
    var firstRun := ds.iteration == 0;
    if firstRun {
      emissions := InitialOutputs(outputs, state, p, ds);
      SeriesDataInitial(data0, start, state, p);
    }
    StartTracked(start, outputs, emissions, firstRun, p);
    SameClocksKeepTracked(start, ds.Value(), outputs, emissions, Firsts(start, firstRun), ClocksOnSchedule(start, outputs), p);
    ghost var prefix := emissions;
    r, emissions, trace, recs, logs := Evolve(cfg, outputs, state, p, ds, emissions, fuel, Firsts(start, firstRun),
                           ClocksOnSchedule(start, outputs), data0);
  }

}
