/** The two handler passes of the driver's main loop
    (include/mist/driver.hpp:467-469 and 474-477) as functions of the
    record and the callbacks made so far: each output's handler in index
    order (message, checkpoint, products, timeseries), and when it fires,
    its clock advanced and then its callback. The lemmas say, for every
    input, which outputs fire: those due against the clocks the pass
    started from, in index order. */
module Passes {
  import opened Wrappers
  import opened Integrators
  import opened TimeseriesTable
  import opened DriverStates
  import opened Scheduling
  import opened Tracking

  /** A callback's effect: its emission, numbered with the channel's count
      as it stands, and for the time series the sample accumulated into
      the table. */
  function Fired<S>(ch: Channel, s: S, initial: bool, p: Physics<S>, rec: Record, es: seq<Emission<S>>)
    : (Record, seq<Emission<S>>)
  {
    (if ch == Series then rec.(timeseriesData := Accumulated(rec.timeseriesData, TimeseriesSample(p, s))) else rec,
     es + [Emission(ch, rec.ClockOf(ch).count, s, initial)])
  }

  /** Where a pass of the exact handlers got to: completed, or stopped by
      the integrator's error, with the record and the callbacks so far. */
  datatype Pass<S> = Pass(ok: Result<(), string>, rec: Record, es: seq<Emission<S>>)

  /** One exact handler and its callback. */
  function ExactStep<S>(o: ScheduledOutput, t0: real, t1: real, state: S, p: Physics<S>, order: int,
                        rec: Record, es: seq<Emission<S>>): Pass<S>
  {
    var next := rec.ClockOf(o.channel).nextTime;
    if !ExactDue(o, t0, t1, next) then Pass(Success(()), rec, es)
    else
      match RkStep(order, p, state, next - t0)
      case Failure(e) => Pass(Failure(e), rec, es)
      case Success(s) =>
        var (rec', es') := Fired(o.channel, s, false, p, rec.Advanced(o.channel, o.interval), es);
        Pass(Success(()), rec', es')
  }

  /** The exact handlers of outputs[..n], in order; the first error stops
      the pass. */
  function ExactPassOf<S>(outputs: seq<ScheduledOutput>, n: nat, t0: real, t1: real, state: S, p: Physics<S>,
                          order: int, rec: Record, es: seq<Emission<S>>): Pass<S>
    requires n <= |outputs|
  {
    if n == 0 then Pass(Success(()), rec, es)
    else
      var prev := ExactPassOf(outputs, n - 1, t0, t1, state, p, order, rec, es);
      if prev.ok.Failure? then prev else ExactStep(outputs[n - 1], t0, t1, state, p, order, prev.rec, prev.es)
  }

  /** One nearest handler and its callback. */
  function NearestStep<S>(o: ScheduledOutput, state: S, p: Physics<S>, rec: Record, es: seq<Emission<S>>)
    : (Record, seq<Emission<S>>)
  {
    if NearestDue(o, GetTime(p, state, o.intervalKind), rec.ClockOf(o.channel).nextTime)
    then Fired(o.channel, state, false, p, rec.Advanced(o.channel, o.interval), es)
    else (rec, es)
  }

  /** The nearest handlers of outputs[..n], in order. */
  function NearestPassOf<S>(outputs: seq<ScheduledOutput>, n: nat, state: S, p: Physics<S>, rec: Record,
                            es: seq<Emission<S>>): (Record, seq<Emission<S>>)
    requires n <= |outputs|
  {
    if n == 0 then (rec, es)
    else
      var prev := NearestPassOf(outputs, n - 1, state, p, rec, es);
      NearestStep(outputs[n - 1], state, p, prev.0, prev.1)
  }

  // ---------------------------------------------------------------------
  // Which outputs fire
  // ---------------------------------------------------------------------

  predicate ValidOrder(order: int)
  {
    order == 1 || order == 2 || order == 3
  }

  /** A clock after its handler: one interval on and one more emission
      when it was due, as it was otherwise. */
  function ClockAfter(c: Clock, o: ScheduledOutput, due: bool): Clock
  {
    if due then Clock(c.count + 1, c.nextTime + o.interval) else c
  }

  /** The callbacks of the exact outputs among outputs[..n] that are due
      against rec's clocks, in index order: the state integrated from t0
      to the output's next time, numbered one past its count. */
  function ExactEmissions<S>(outputs: seq<ScheduledOutput>, n: nat, t0: real, t1: real, state: S, p: Physics<S>,
                             order: int, rec: Record): seq<Emission<S>>
    requires n <= |outputs| && ValidOrder(order)
  {
    if n == 0 then []
    else
      var o := outputs[n - 1];
      var c := rec.ClockOf(o.channel);
      ExactEmissions(outputs, n - 1, t0, t1, state, p, order, rec)
      + if ExactDue(o, t0, t1, c.nextTime)
        then [Emission(o.channel, c.count + 1, RkStep(order, p, state, c.nextTime - t0).value, false)]
        else []
  }

  /** The callbacks of the nearest outputs among outputs[..n] whose time
      in state has reached their next time in rec, in index order, each
      handed state and numbered one past its count. */
  function NearestEmissions<S>(outputs: seq<ScheduledOutput>, n: nat, state: S, p: Physics<S>, rec: Record)
    : seq<Emission<S>>
    requires n <= |outputs|
  {
    if n == 0 then []
    else
      var o := outputs[n - 1];
      var c := rec.ClockOf(o.channel);
      NearestEmissions(outputs, n - 1, state, p, rec)
      + if NearestDue(o, GetTime(p, state, o.intervalKind), c.nextTime)
        then [Emission(o.channel, c.count + 1, state, false)]
        else []
  }

  /** The table after some callbacks and then others is the table after
      all of them. */
  lemma {:induction false} SeriesDataAppend<S>(data: seq<Column>, a: seq<Emission<S>>, b: seq<Emission<S>>,
                                               p: Physics<S>)
    ensures SeriesData(data, a + b, p) == SeriesData(SeriesData(data, a, p), b, p)
    decreases |b|
  {
    if b != [] {
      var b' := b[..|b| - 1];
      var e := b[|b| - 1];
      assert b == b' + [e];
      assert a + b == (a + b') + [e];
      SeriesDataAppend(data, a, b', p);
      SeriesDataSnoc(data, a + b', e, p);
      SeriesDataSnoc(SeriesData(data, a, p), b', e, p);
    } else {
      assert a + b == a;
    }
  }

  /** A callback keeps every clock and the iteration, and the table it
      leaves is the one its emission adds. */
  lemma FiredEffect<S>(ch: Channel, s: S, p: Physics<S>, rec: Record, es: seq<Emission<S>>, data0: seq<Column>,
                       before: seq<Emission<S>>)
    requires rec.timeseriesData == SeriesData(data0, before, p)
    ensures var f := Fired(ch, s, false, p, rec, es);
      && f.1 == es + [Emission(ch, rec.ClockOf(ch).count, s, false)]
      && f.0.timeseriesData == SeriesData(data0, before + [Emission(ch, rec.ClockOf(ch).count, s, false)], p)
      && f.0.iteration == rec.iteration
      && forall other :: f.0.ClockOf(other) == rec.ClockOf(other)
  {
    SeriesDataSnoc(data0, before, Emission(ch, rec.ClockOf(ch).count, s, false), p);
  }

  /** Once an exact pass has stopped on an error, handling further outputs
      changes nothing. */
  lemma {:induction false} ExactPassStops<S>(outputs: seq<ScheduledOutput>, n: nat, m: nat, t0: real, t1: real,
                                             state: S, p: Physics<S>, order: int, rec: Record, es: seq<Emission<S>>)
    requires n <= m <= |outputs|
    requires ExactPassOf(outputs, n, t0, t1, state, p, order, rec, es).ok.Failure?
    ensures ExactPassOf(outputs, m, t0, t1, state, p, order, rec, es)
         == ExactPassOf(outputs, n, t0, t1, state, p, order, rec, es)
    decreases m
  {
    if m > n {
      ExactPassStops(outputs, n, m - 1, t0, t1, state, p, order, rec, es);
    }
  }

  /** The exact pass over outputs[..n] has done what the due outputs
      call for: completed, with the due outputs' callbacks appended to es0
      in index order, their clocks moved on once, no other clock moved,
      and the table holding exactly the timeseries callbacks. */
  ghost predicate ExactDone<S>(outputs: seq<ScheduledOutput>, n: nat, t0: real, t1: real, state: S, p: Physics<S>,
                               order: int, rec0: Record, es0: seq<Emission<S>>, q: Pass<S>)
    requires WellFormed(outputs) && n <= 4 && ValidOrder(order)
  {
    var fired := ExactEmissions(outputs, n, t0, t1, state, p, order, rec0);
    && q.ok.Success?
    && q.es == es0 + fired
    && q.rec.iteration == rec0.iteration
    && q.rec.timeseriesData == SeriesData(rec0.timeseriesData, fired, p)
    && forall j :: 0 <= j < 4 ==>
         q.rec.ClockOf(outputs[j].channel)
         == ClockAfter(rec0.ClockOf(outputs[j].channel), outputs[j],
                       j < n && ExactDue(outputs[j], t0, t1, rec0.ClockOf(outputs[j].channel).nextTime))
  }

  /** Output n - 1's exact handler fired: its clock moved on once and no
      other clock moved, so the clocks of outputs[..n] are where their due
      tests put them. */
  lemma ExactClocksStep(outputs: seq<ScheduledOutput>, n: nat, t0: real, t1: real, rec0: Record, rec: Record,
                        rec': Record)
    requires WellFormed(outputs) && 0 < n <= 4
    requires forall j :: 0 <= j < 4 ==>
      rec.ClockOf(outputs[j].channel)
      == ClockAfter(rec0.ClockOf(outputs[j].channel), outputs[j],
                    j < n - 1 && ExactDue(outputs[j], t0, t1, rec0.ClockOf(outputs[j].channel).nextTime))
    requires rec'.ClockOf(outputs[n - 1].channel)
      == ClockAfter(rec0.ClockOf(outputs[n - 1].channel), outputs[n - 1],
                    ExactDue(outputs[n - 1], t0, t1, rec0.ClockOf(outputs[n - 1].channel).nextTime))
    requires forall ch :: ch != outputs[n - 1].channel ==> rec'.ClockOf(ch) == rec.ClockOf(ch)
    ensures forall j :: 0 <= j < 4 ==>
      rec'.ClockOf(outputs[j].channel)
      == ClockAfter(rec0.ClockOf(outputs[j].channel), outputs[j],
                    j < n && ExactDue(outputs[j], t0, t1, rec0.ClockOf(outputs[j].channel).nextTime))
  {
    forall j | 0 <= j < 4
      ensures rec'.ClockOf(outputs[j].channel)
           == ClockAfter(rec0.ClockOf(outputs[j].channel), outputs[j],
                         j < n && ExactDue(outputs[j], t0, t1, rec0.ClockOf(outputs[j].channel).nextTime))
    {
      if j != n - 1 {
        assert outputs[j].channel != outputs[n - 1].channel;
      }
    }
  }

  /** A due exact output fires: the state integrated to its next time,
      its clock advanced, then its callback. */
  lemma ExactStepFired<S>(o: ScheduledOutput, t0: real, t1: real, state: S, p: Physics<S>, order: int, rec: Record,
                          es: seq<Emission<S>>)
    requires ValidOrder(order) && ExactDue(o, t0, t1, rec.ClockOf(o.channel).nextTime)
    ensures var s := RkStep(order, p, state, rec.ClockOf(o.channel).nextTime - t0).value;
      var f := Fired(o.channel, s, false, p, rec.Advanced(o.channel, o.interval), es);
      ExactStep(o, t0, t1, state, p, order, rec, es) == Pass(Success(()), f.0, f.1)
  {
  }

  /** Handling a due output n - 1 takes the pass from outputs[..n - 1] to
      outputs[..n]. */
  lemma ExactStepDue<S>(outputs: seq<ScheduledOutput>, n: nat, t0: real, t1: real, state: S, p: Physics<S>,
                        order: int, rec0: Record, es0: seq<Emission<S>>, q: Pass<S>)
    requires WellFormed(outputs) && 0 < n <= 4 && ValidOrder(order)
    requires ExactDone(outputs, n - 1, t0, t1, state, p, order, rec0, es0, q)
    requires ExactDue(outputs[n - 1], t0, t1, rec0.ClockOf(outputs[n - 1].channel).nextTime)
    ensures ExactDone(outputs, n, t0, t1, state, p, order, rec0, es0,
                      ExactStep(outputs[n - 1], t0, t1, state, p, order, q.rec, q.es))
  {
    var o := outputs[n - 1];
    var c := rec0.ClockOf(o.channel);
    assert q.rec.ClockOf(o.channel) == c;
    var before := ExactEmissions(outputs, n - 1, t0, t1, state, p, order, rec0);
    var s := RkStep(order, p, state, c.nextTime - t0).value;
    var adv := q.rec.Advanced(o.channel, o.interval);
    var e := Emission(o.channel, c.count + 1, s, false);
    var f := Fired(o.channel, s, false, p, adv, q.es);
    assert ExactStep(o, t0, t1, state, p, order, q.rec, q.es) == Pass(Success(()), f.0, f.1) by {
      ExactStepFired(o, t0, t1, state, p, order, q.rec, q.es);
    }
    assert ExactEmissions(outputs, n, t0, t1, state, p, order, rec0) == before + [e];
    assert adv.ClockOf(o.channel) == ClockAfter(c, o, true) && adv.iteration == q.rec.iteration &&
           adv.timeseriesData == q.rec.timeseriesData &&
           forall ch :: ch != o.channel ==> adv.ClockOf(ch) == q.rec.ClockOf(ch) by {
      AdvancedChangesOneClock(q.rec, o.channel, o.interval);
    }
    assert f.1 == q.es + [e] && f.0.iteration == adv.iteration &&
           f.0.timeseriesData == SeriesData(rec0.timeseriesData, before + [e], p) &&
           forall ch :: f.0.ClockOf(ch) == adv.ClockOf(ch) by {
      assert Emission(o.channel, adv.ClockOf(o.channel).count, s, false) == e;
      FiredEffect(o.channel, s, p, adv, q.es, rec0.timeseriesData, before);
    }
    ExactClocksStep(outputs, n, t0, t1, rec0, q.rec, f.0);
  }

  /** Handling output n - 1 takes the pass from outputs[..n - 1] to
      outputs[..n]. */
  lemma ExactStepDone<S>(outputs: seq<ScheduledOutput>, n: nat, t0: real, t1: real, state: S, p: Physics<S>,
                         order: int, rec0: Record, es0: seq<Emission<S>>, q: Pass<S>)
    requires WellFormed(outputs) && 0 < n <= 4 && ValidOrder(order)
    requires ExactDone(outputs, n - 1, t0, t1, state, p, order, rec0, es0, q)
    ensures ExactDone(outputs, n, t0, t1, state, p, order, rec0, es0,
                      ExactStep(outputs[n - 1], t0, t1, state, p, order, q.rec, q.es))
  {
    var o := outputs[n - 1];
    var c := rec0.ClockOf(o.channel);
    assert q.rec.ClockOf(o.channel) == c;
    if ExactDue(o, t0, t1, c.nextTime) {
      ExactStepDue(outputs, n, t0, t1, state, p, order, rec0, es0, q);
    } else {
      assert ExactEmissions(outputs, n, t0, t1, state, p, order, rec0)
          == ExactEmissions(outputs, n - 1, t0, t1, state, p, order, rec0);
    }
  }

  /** With a valid order the exact pass over outputs[..n] completes. Its
      callbacks are those of the exact outputs due against the clocks it
      started from, in index order; each of their clocks moved on once
      and no other clock moved; the table took exactly the timeseries
      callbacks. */
  lemma {:induction false} ExactPassFires<S>(outputs: seq<ScheduledOutput>, n: nat, t0: real, t1: real, state: S,
                                             p: Physics<S>, order: int, rec: Record, es: seq<Emission<S>>)
    requires WellFormed(outputs) && n <= 4 && ValidOrder(order)
    ensures var q := ExactPassOf(outputs, n, t0, t1, state, p, order, rec, es);
      && q.ok.Success?
      && q.es == es + ExactEmissions(outputs, n, t0, t1, state, p, order, rec)
      && q.rec.iteration == rec.iteration
      && q.rec.timeseriesData == SeriesData(rec.timeseriesData, ExactEmissions(outputs, n, t0, t1, state, p, order, rec), p)
      && forall j :: 0 <= j < 4 ==>
           q.rec.ClockOf(outputs[j].channel)
           == ClockAfter(rec.ClockOf(outputs[j].channel), outputs[j],
                         j < n && ExactDue(outputs[j], t0, t1, rec.ClockOf(outputs[j].channel).nextTime))
  {
    ExactPassDone(outputs, n, t0, t1, state, p, order, rec, es);
  }

  lemma {:induction false} ExactPassDone<S>(outputs: seq<ScheduledOutput>, n: nat, t0: real, t1: real, state: S,
                                            p: Physics<S>, order: int, rec: Record, es: seq<Emission<S>>)
    requires WellFormed(outputs) && n <= 4 && ValidOrder(order)
    ensures ExactDone(outputs, n, t0, t1, state, p, order, rec, es, ExactPassOf(outputs, n, t0, t1, state, p, order, rec, es))
  {
    if n > 0 {
      ExactPassDone(outputs, n - 1, t0, t1, state, p, order, rec, es);
      ExactStepDone(outputs, n, t0, t1, state, p, order, rec, es,
                    ExactPassOf(outputs, n - 1, t0, t1, state, p, order, rec, es));
    }
  }

  /** With an invalid order the exact pass fails iff some output among
      outputs[..n] is due, and nothing fires either way. */
  lemma {:induction false} ExactPassRejects<S>(outputs: seq<ScheduledOutput>, n: nat, t0: real, t1: real, state: S,
                                               p: Physics<S>, order: int, rec: Record, es: seq<Emission<S>>)
    requires WellFormed(outputs) && n <= 4 && !ValidOrder(order)
    ensures var q := ExactPassOf(outputs, n, t0, t1, state, p, order, rec, es);
      && (q.ok.Failure? <==>
            exists j :: 0 <= j < n && ExactDue(outputs[j], t0, t1, rec.ClockOf(outputs[j].channel).nextTime))
      && (q.ok.Failure? ==> q.ok.error == RkOrderError)
      && q.rec == rec && q.es == es
  {
    if n > 0 {
      ExactPassRejects(outputs, n - 1, t0, t1, state, p, order, rec, es);
      var o := outputs[n - 1];
      if ExactDue(o, t0, t1, rec.ClockOf(o.channel).nextTime) {
        assert 0 <= n - 1 < n && ExactDue(outputs[n - 1], t0, t1, rec.ClockOf(outputs[n - 1].channel).nextTime);
      }
    }
  }

  /** The nearest pass over outputs[..n] has done what the due outputs
      call for, as ExactDone says of the exact pass. */
  ghost predicate NearestDone<S>(outputs: seq<ScheduledOutput>, n: nat, state: S, p: Physics<S>, rec0: Record,
                                 es0: seq<Emission<S>>, q: (Record, seq<Emission<S>>))
    requires WellFormed(outputs) && n <= 4
  {
    var fired := NearestEmissions(outputs, n, state, p, rec0);
    && q.1 == es0 + fired
    && q.0.iteration == rec0.iteration
    && q.0.timeseriesData == SeriesData(rec0.timeseriesData, fired, p)
    && forall j :: 0 <= j < 4 ==>
         q.0.ClockOf(outputs[j].channel)
         == ClockAfter(rec0.ClockOf(outputs[j].channel), outputs[j],
                       j < n && NearestDue(outputs[j], GetTime(p, state, outputs[j].intervalKind),
                                           rec0.ClockOf(outputs[j].channel).nextTime))
  }

  /** Handling output n - 1 takes the pass from outputs[..n - 1] to
      outputs[..n]. */
  lemma NearestStepDone<S>(outputs: seq<ScheduledOutput>, n: nat, state: S, p: Physics<S>, rec0: Record,
                           es0: seq<Emission<S>>, q: (Record, seq<Emission<S>>))
    requires WellFormed(outputs) && 0 < n <= 4
    requires NearestDone(outputs, n - 1, state, p, rec0, es0, q)
    ensures NearestDone(outputs, n, state, p, rec0, es0, NearestStep(outputs[n - 1], state, p, q.0, q.1))
  {
    var o := outputs[n - 1];
    var c := rec0.ClockOf(o.channel);
    assert q.0.ClockOf(o.channel) == c;
    var before := NearestEmissions(outputs, n - 1, state, p, rec0);
    var r := NearestStep(o, state, p, q.0, q.1);
    if NearestDue(o, GetTime(p, state, o.intervalKind), c.nextTime) {
      var adv := q.0.Advanced(o.channel, o.interval);
      AdvancedChangesOneClock(q.0, o.channel, o.interval);
      var e := Emission(o.channel, c.count + 1, state, false);
      assert NearestEmissions(outputs, n, state, p, rec0) == before + [e];
      assert Emission(o.channel, adv.ClockOf(o.channel).count, state, false) == e;
      FiredEffect(o.channel, state, p, adv, q.1, rec0.timeseriesData, before);
      assert r == Fired(o.channel, state, false, p, adv, q.1);
      forall j | 0 <= j < 4
        ensures r.0.ClockOf(outputs[j].channel)
             == ClockAfter(rec0.ClockOf(outputs[j].channel), outputs[j],
                           j < n && NearestDue(outputs[j], GetTime(p, state, outputs[j].intervalKind),
                                               rec0.ClockOf(outputs[j].channel).nextTime))
      {
        if j != n - 1 {
          assert outputs[j].channel != o.channel;
        }
      }
    } else {
      assert NearestEmissions(outputs, n, state, p, rec0) == before;
    }
  }

  /** The nearest pass over outputs[..n]: its callbacks are those of the
      nearest outputs due against the clocks it started from, in index
      order; each of their clocks moved on once and no other clock moved;
      the table took exactly the timeseries callbacks. */
  lemma {:induction false} NearestPassFires<S>(outputs: seq<ScheduledOutput>, n: nat, state: S, p: Physics<S>,
                                               rec: Record, es: seq<Emission<S>>)
    requires WellFormed(outputs) && n <= 4
    ensures var q := NearestPassOf(outputs, n, state, p, rec, es);
      && q.1 == es + NearestEmissions(outputs, n, state, p, rec)
      && q.0.iteration == rec.iteration
      && q.0.timeseriesData == SeriesData(rec.timeseriesData, NearestEmissions(outputs, n, state, p, rec), p)
      && forall j :: 0 <= j < 4 ==>
           q.0.ClockOf(outputs[j].channel)
           == ClockAfter(rec.ClockOf(outputs[j].channel), outputs[j],
                         j < n && NearestDue(outputs[j], GetTime(p, state, outputs[j].intervalKind),
                                             rec.ClockOf(outputs[j].channel).nextTime))
  {
    NearestPassDone(outputs, n, state, p, rec, es);
  }

  lemma {:induction false} NearestPassDone<S>(outputs: seq<ScheduledOutput>, n: nat, state: S, p: Physics<S>,
                                              rec: Record, es: seq<Emission<S>>)
    requires WellFormed(outputs) && n <= 4
    ensures NearestDone(outputs, n, state, p, rec, es, NearestPassOf(outputs, n, state, p, rec, es))
  {
    if n > 0 {
      NearestPassDone(outputs, n - 1, state, p, rec, es);
      NearestStepDone(outputs, n, state, p, rec, es, NearestPassOf(outputs, n - 1, state, p, rec, es));
    }
  }

  /** Which nearest outputs are due depends only on the clocks of the
      nearest outputs, so clocks the exact pass moved do not change it. */
  lemma {:induction false} NearestEmissionsSameClocks<S>(outputs: seq<ScheduledOutput>, n: nat, state: S, p: Physics<S>,
                                                         rec: Record, rec': Record)
    requires n <= |outputs|
    requires forall j :: 0 <= j < n && outputs[j].policy == Nearest ==>
      rec'.ClockOf(outputs[j].channel) == rec.ClockOf(outputs[j].channel)
    ensures NearestEmissions(outputs, n, state, p, rec') == NearestEmissions(outputs, n, state, p, rec)
  {
    if n > 0 {
      NearestEmissionsSameClocks(outputs, n - 1, state, p, rec, rec');
    }
  }
}
