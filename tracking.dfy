/** What the driver's output callbacks see, and what the driver keeps
    true of them: the emissions each channel made, numbered by its count,
    and, on a schedule begun at time 0, each on time
    (include/mist/driver.hpp:118-138 and 372-478). */
module Tracking {
  import opened Integrators
  import opened TimeseriesTable
  import opened DriverStates
  import opened Scheduling

  /** The fixed order of the outputs array. */
  const ChannelOrder: seq<Channel> := [Message, Checkpoint, Products, Series]

  /** Four outputs, one per channel, in the fixed order. */
  predicate WellFormed(outputs: seq<ScheduledOutput>)
  {
    |outputs| == 4 && forall i :: 0 <= i < 4 ==> outputs[i].channel == ChannelOrder[i]
  }

  // ---------------------------------------------------------------------
  // What the callbacks see
  // ---------------------------------------------------------------------

  /** One callback invocation: the channel, its count when the callback
      ran (the checkpoint and products file number), the state it was
      given, and whether it was one of the unconditional outputs of a
      first run. */
  datatype Emission<S> = Emission(channel: Channel, number: int, state: S, initial: bool)

  /** The numbers a channel's emissions carried, in order. */
  function NumbersOf<S>(es: seq<Emission<S>>, ch: Channel): seq<int>
    decreases |es|
  {
    if es == [] then []
    else NumbersOf(es[..|es| - 1], ch) + (if es[|es| - 1].channel == ch then [es[|es| - 1].number] else [])
  }

  /** lo, lo + 1, ..., hi - 1. */
  function Span(lo: int, hi: int): seq<int>
    decreases hi - lo
  {
    if hi <= lo then [] else Span(lo, hi - 1) + [hi - 1]
  }

  /** The time-series table after the callbacks es, started from data. */
  function SeriesData<S>(data: seq<Column>, es: seq<Emission<S>>, p: Physics<S>): seq<Column>
    decreases |es|
  {
    if es == [] then data
    else
      var before := SeriesData(data, es[..|es| - 1], p);
      var e := es[|es| - 1];
      if e.channel == Series then Accumulated(before, TimeseriesSample(p, e.state)) else before
  }

  lemma NumbersOfSnoc<S>(es: seq<Emission<S>>, e: Emission<S>, ch: Channel)
    ensures NumbersOf(es + [e], ch) == NumbersOf(es, ch) + (if e.channel == ch then [e.number] else [])
  {
    assert (es + [e])[..|es|] == es;
  }

  lemma SeriesDataSnoc<S>(data: seq<Column>, es: seq<Emission<S>>, e: Emission<S>, p: Physics<S>)
    ensures SeriesData(data, es + [e], p)
         == if e.channel == Series then Accumulated(SeriesData(data, es, p), TimeseriesSample(p, e.state))
            else SeriesData(data, es, p)
  {
    assert (es + [e])[..|es|] == es;
  }

  /** n * interval, as the sum of n intervals: the value next_time holds
      after n firings of a clock started at one interval. */
  function Multiple(interval: real, n: nat): (r: real)
  {
    if n == 0 then 0.0 else Multiple(interval, n - 1) + interval
  }

  lemma {:induction false} MultipleIsProduct(interval: real, n: nat)
    ensures Multiple(interval, n) == interval * n as real
  {
    if n > 0 {
      MultipleIsProduct(interval, n - 1);
    }
  }

  /** A scheduled emission is on time: a nearest output's state has
      reached the emission's scheduled time, interval * number; an exact
      output's state, under a physics that keeps time consistently, is at
      that time exactly. */
  ghost predicate OnTime<S(!new)>(e: Emission<S>, o: ScheduledOutput, p: Physics<S>)
  {
    e.number >= 0 &&
    (o.policy == Nearest ==> GetTime(p, e.state, o.intervalKind) >= Multiple(o.interval, e.number)) &&
    (o.policy == Exact && TimeConsistent(p) ==> GetTime(p, e.state, 0) == Multiple(o.interval, e.number))
  }

  /** What the driver keeps true of one channel: its emissions are
      numbered first, first + 1, ..., count; and, on a schedule begun at
      a fresh start, its next time is interval * (count + 1) and every
      scheduled emission was on time. */
  ghost predicate Tracked<S(!new)>(c: Clock, o: ScheduledOutput, es: seq<Emission<S>>, first: int, onSchedule: bool, p: Physics<S>)
  {
    first <= c.count + 1 &&
    NumbersOf(es, o.channel) == Span(first, c.count + 1) &&
    (onSchedule ==>
       c.count >= 0 && c.nextTime == Multiple(o.interval, c.count + 1) && AllOnTime(es, o, p))
  }

  /** Every scheduled (not initial) emission of o's channel in es was on
      time. */
  ghost predicate AllOnTime<S(!new)>(es: seq<Emission<S>>, o: ScheduledOutput, p: Physics<S>)
    decreases |es|
  {
    es == [] ||
    (AllOnTime(es[..|es| - 1], o, p) &&
     (es[|es| - 1].channel == o.channel && !es[|es| - 1].initial ==> OnTime(es[|es| - 1], o, p)))
  }

  lemma AllOnTimeSnoc<S(!new)>(es: seq<Emission<S>>, e: Emission<S>, o: ScheduledOutput, p: Physics<S>)
    ensures AllOnTime(es + [e], o, p) <==> AllOnTime(es, o, p) && (e.channel == o.channel && !e.initial ==> OnTime(e, o, p))
  {
    assert (es + [e])[..|es|] == es;
  }

  ghost predicate AllTracked<S(!new)>(rec: Record, outputs: seq<ScheduledOutput>, es: seq<Emission<S>>, firsts: seq<int>,
                                      onSchedule: bool, p: Physics<S>)
  {
    |outputs| == 4 && |firsts| == 4 &&
    forall i :: 0 <= i < 4 ==> Tracked(rec.ClockOf(outputs[i].channel), outputs[i], es, firsts[i], onSchedule, p)
  }

  /** The channel that fired: one more emission, numbered count + 1, and
      the clock one interval on. */
  lemma TrackedFired<S(!new)>(c: Clock, o: ScheduledOutput, es: seq<Emission<S>>, e: Emission<S>, first: int,
                              onSchedule: bool, p: Physics<S>)
    requires Tracked(c, o, es, first, onSchedule, p)
    requires e.channel == o.channel && e.number == c.count + 1 && !e.initial
    requires onSchedule ==> OnTime(e, o, p)
    ensures Tracked(Clock(c.count + 1, c.nextTime + o.interval), o, es + [e], first, onSchedule, p)
  {
    NumbersOfSnoc(es, e, o.channel);
    AllOnTimeSnoc(es, e, o, p);
    assert Span(first, c.count + 2) == Span(first, c.count + 1) + [c.count + 1];
  }

  /** A channel that did not fire is unaffected by another's emission. */
  lemma TrackedOther<S(!new)>(c: Clock, o: ScheduledOutput, es: seq<Emission<S>>, e: Emission<S>, first: int,
                              onSchedule: bool, p: Physics<S>)
    requires Tracked(c, o, es, first, onSchedule, p)
    requires e.channel != o.channel
    ensures Tracked(c, o, es + [e], first, onSchedule, p)
  {
    NumbersOfSnoc(es, e, o.channel);
    AllOnTimeSnoc(es, e, o, p);
  }

  /** A firing of output j keeps output i tracked. */
  lemma FiredKeepsOne<S(!new)>(rec: Record, rec': Record, outputs: seq<ScheduledOutput>, es: seq<Emission<S>>,
                               e: Emission<S>, first: int, onSchedule: bool, p: Physics<S>, j: nat, i: nat)
    requires WellFormed(outputs) && j < 4 && i < 4
    requires Tracked(rec.ClockOf(outputs[i].channel), outputs[i], es, first, onSchedule, p)
    requires rec' == rec.Advanced(outputs[j].channel, outputs[j].interval)
    requires e == Emission(outputs[j].channel, rec.ClockOf(outputs[j].channel).count + 1, e.state, false)
    requires onSchedule ==> OnTime(e, outputs[j], p)
    ensures Tracked(rec'.ClockOf(outputs[i].channel), outputs[i], es + [e], first, onSchedule, p)
  {
    AdvancedChangesOneClock(rec, outputs[j].channel, outputs[j].interval);
    var c := rec.ClockOf(outputs[i].channel);
    if i == j {
      TrackedFired(c, outputs[i], es, e, first, onSchedule, p);
    } else {
      assert outputs[i].channel != outputs[j].channel;
      TrackedOther(c, outputs[i], es, e, first, onSchedule, p);
    }
  }

  /** A firing of output j keeps every channel tracked. */
  lemma FiredKeepsTracked<S(!new)>(rec: Record, rec': Record, outputs: seq<ScheduledOutput>, es: seq<Emission<S>>,
                                   e: Emission<S>, firsts: seq<int>, onSchedule: bool, p: Physics<S>, j: nat)
    requires WellFormed(outputs) && j < 4
    requires AllTracked(rec, outputs, es, firsts, onSchedule, p)
    requires rec' == rec.Advanced(outputs[j].channel, outputs[j].interval)
    requires e == Emission(outputs[j].channel, rec.ClockOf(outputs[j].channel).count + 1, e.state, false)
    requires onSchedule ==> OnTime(e, outputs[j], p)
    ensures AllTracked(rec', outputs, es + [e], firsts, onSchedule, p)
  {
    forall i | 0 <= i < 4
      ensures Tracked(rec'.ClockOf(outputs[i].channel), outputs[i], es + [e], firsts[i], onSchedule, p)
    {
      FiredKeepsOne(rec, rec', outputs, es, e, firsts[i], onSchedule, p, j, i);
    }
  }

  /** A firing that does not change the clocks, such as the time-series
      callback's accumulation, keeps every channel tracked. */
  lemma SameClocksKeepTracked<S(!new)>(rec: Record, rec': Record, outputs: seq<ScheduledOutput>, es: seq<Emission<S>>,
                                       firsts: seq<int>, onSchedule: bool, p: Physics<S>)
    requires AllTracked(rec, outputs, es, firsts, onSchedule, p)
    requires forall ch :: rec'.ClockOf(ch) == rec.ClockOf(ch)
    ensures AllTracked(rec', outputs, es, firsts, onSchedule, p)
  {
    forall i | 0 <= i < 4
      ensures Tracked(rec'.ClockOf(outputs[i].channel), outputs[i], es, firsts[i], onSchedule, p)
    {
      assert rec'.ClockOf(outputs[i].channel) == rec.ClockOf(outputs[i].channel);
    }
  }

  /** An exact firing of output i keeps every channel tracked: the state
      it hands over, under a physics that keeps time consistently, sits at
      the channel's next time, which is its scheduled multiple. */
  lemma ExactFiredTracked<S(!new)>(rec: Record, rec': Record, outputs: seq<ScheduledOutput>, es: seq<Emission<S>>,
                                   firsts: seq<int>, onSchedule: bool, p: Physics<S>, i: nat,
                                   t0: real, t1: real, state: S, exact: S)
    requires WellFormed(outputs) && i < 4
    requires AllTracked(rec, outputs, es, firsts, onSchedule, p)
    requires t0 == GetTime(p, state, 0)
    requires ExactDue(outputs[i], t0, t1, rec.ClockOf(outputs[i].channel).nextTime)
    requires TimeConsistent(p) ==>
      GetTime(p, exact, 0) == GetTime(p, state, 0) + (rec.ClockOf(outputs[i].channel).nextTime - t0)
    requires rec' == rec.Advanced(outputs[i].channel, outputs[i].interval)
    ensures AllTracked(rec', outputs,
                       es + [Emission(outputs[i].channel, rec'.ClockOf(outputs[i].channel).count, exact, false)],
                       firsts, onSchedule, p)
  {
    var c := rec.ClockOf(outputs[i].channel);
    var e := Emission(outputs[i].channel, c.count + 1, exact, false);
    if onSchedule {
      assert Tracked(c, outputs[i], es, firsts[i], onSchedule, p);
      assert OnTime(e, outputs[i], p);
    }
    AdvancedChangesOneClock(rec, outputs[i].channel, outputs[i].interval);
    FiredKeepsTracked(rec, rec', outputs, es, e, firsts, onSchedule, p, i);
  }

  /** A nearest firing of output i keeps every channel tracked: the state
      it hands over has reached the channel's next time, which is its
      scheduled multiple. */
  lemma NearestFiredTracked<S(!new)>(rec: Record, rec': Record, outputs: seq<ScheduledOutput>, es: seq<Emission<S>>,
                                     firsts: seq<int>, onSchedule: bool, p: Physics<S>, i: nat, state: S)
    requires WellFormed(outputs) && i < 4
    requires AllTracked(rec, outputs, es, firsts, onSchedule, p)
    requires NearestDue(outputs[i], GetTime(p, state, outputs[i].intervalKind), rec.ClockOf(outputs[i].channel).nextTime)
    requires rec' == rec.Advanced(outputs[i].channel, outputs[i].interval)
    ensures AllTracked(rec', outputs,
                       es + [Emission(outputs[i].channel, rec'.ClockOf(outputs[i].channel).count, state, false)],
                       firsts, onSchedule, p)
  {
    var c := rec.ClockOf(outputs[i].channel);
    var e := Emission(outputs[i].channel, c.count + 1, state, false);
    if onSchedule {
      assert Tracked(c, outputs[i], es, firsts[i], onSchedule, p);
      assert OnTime(e, outputs[i], p);
    }
    AdvancedChangesOneClock(rec, outputs[i].channel, outputs[i].interval);
    FiredKeepsTracked(rec, rec', outputs, es, e, firsts, onSchedule, p, i);
  }

  /** The callbacks a first run makes on the initial state before the
      loop: every output but the message, numbered with the counts as
      they stand. */
  function InitialEmissions<S>(rec: Record, s: S): seq<Emission<S>>
  {
    [Emission(Checkpoint, rec.checkpoint.count, s, true),
     Emission(Products, rec.products.count, s, true),
     Emission(Series, rec.series.count, s, true)]
  }

  /** The first number each channel's emissions carry: a first run starts
      every output but the message at its count (the initial output),
      and anything else at count + 1. */
  function Firsts(rec: Record, firstRun: bool): (r: seq<int>)
    ensures |r| == 4
  {
    var d := if firstRun then 0 else 1;
    [rec.message.count + 1, rec.checkpoint.count + d, rec.products.count + d, rec.series.count + d]
  }

  /** Every clock is where a schedule begun at time 0 puts it: count
      firings so far, the next one at interval * (count + 1). */
  ghost predicate ClocksOnSchedule(rec: Record, outputs: seq<ScheduledOutput>)
  {
    |outputs| == 4 &&
    forall i :: 0 <= i < 4 ==>
      rec.ClockOf(outputs[i].channel).count >= 0 &&
      rec.ClockOf(outputs[i].channel).nextTime == Multiple(outputs[i].interval, rec.ClockOf(outputs[i].channel).count + 1)
  }

  /** Channel i before the loop: numbered from its first number, and with
      no scheduled emission yet. */
  lemma StartTrackedOne<S(!new)>(rec: Record, outputs: seq<ScheduledOutput>, es: seq<Emission<S>>, firstRun: bool,
                                 p: Physics<S>, i: nat)
    requires WellFormed(outputs) && i < 4
    requires es == if firstRun then InitialEmissions(rec, p.initialState) else []
    ensures Tracked(rec.ClockOf(outputs[i].channel), outputs[i], es, Firsts(rec, firstRun)[i],
                    ClocksOnSchedule(rec, outputs), p)
  {
    var ch := outputs[i].channel;
    var c := rec.ClockOf(ch);
    if firstRun {
      var e := InitialEmissions(rec, p.initialState);
      assert e == [e[0]] + [e[1]] + [e[2]];
      NumbersOfSnoc([], e[0], ch);
      NumbersOfSnoc([e[0]], e[1], ch);
      NumbersOfSnoc([e[0]] + [e[1]], e[2], ch);
      AllOnTimeSnoc([], e[0], outputs[i], p);
      AllOnTimeSnoc([e[0]], e[1], outputs[i], p);
      AllOnTimeSnoc([e[0]] + [e[1]], e[2], outputs[i], p);
      assert Span(c.count, c.count) == [];
      if ch != Message {
        assert NumbersOf(es, ch) == [c.count];
        assert Span(c.count, c.count + 1) == [c.count];
      }
    }
    if ClocksOnSchedule(rec, outputs) {
      assert c.count >= 0 && c.nextTime == Multiple(outputs[i].interval, c.count + 1);
    }
  }

  lemma StartTracked<S(!new)>(rec: Record, outputs: seq<ScheduledOutput>, es: seq<Emission<S>>, firstRun: bool,
                              p: Physics<S>)
    requires WellFormed(outputs)
    requires es == if firstRun then InitialEmissions(rec, p.initialState) else []
    ensures AllTracked(rec, outputs, es, Firsts(rec, firstRun), ClocksOnSchedule(rec, outputs), p)
  {
    forall i | 0 <= i < 4
      ensures Tracked(rec.ClockOf(outputs[i].channel), outputs[i], es, Firsts(rec, firstRun)[i],
                      ClocksOnSchedule(rec, outputs), p)
    {
      StartTrackedOne(rec, outputs, es, firstRun, p, i);
    }
  }

  /** The initial outputs' table is the one their emissions describe. */
  lemma SeriesDataInitial<S>(data0: seq<Column>, rec: Record, s: S, p: Physics<S>)
    ensures SeriesData(data0, InitialEmissions(rec, s), p) == Accumulated(data0, TimeseriesSample(p, s))
  {
    var e := InitialEmissions(rec, s);
    assert e == [e[0]] + [e[1]] + [e[2]];
    SeriesDataSnoc(data0, [], e[0], p);
    SeriesDataSnoc(data0, [e[0]], e[1], p);
    SeriesDataSnoc(data0, [e[0]] + [e[1]], e[2], p);
  }
}
