/** driver_state_t (include/mist/driver.hpp:145-158): the persisted
    counters, output clocks and time-series table that make a run
    resumable. The run loop and the output handlers update it in place. */
module DriverStates {
  import opened TimeseriesTable

  /** The four output channels, in the driver's fixed order. */
  datatype Channel = Message | Checkpoint | Products | Series

  /** One channel's emission counter and the time of its next output. */
  datatype Clock = Clock(count: int, nextTime: real)

  /** The driver state as a value. */
  datatype Record = Record(
    iteration: int,
    message: Clock,
    checkpoint: Clock,
    products: Clock,
    series: Clock,
    timeseriesData: seq<Column>)
  {
    function ClockOf(ch: Channel): Clock
    {
      match ch
      case Message => message
      case Checkpoint => checkpoint
      case Products => products
      case Series => series
    }

    function WithClock(ch: Channel, c: Clock): (r: Record)
      ensures r.ClockOf(ch) == c
      ensures forall other :: other != ch ==> r.ClockOf(other) == ClockOf(other)
      ensures r.iteration == iteration && r.timeseriesData == timeseriesData
    {
      match ch
      case Message => this.(message := c)
      case Checkpoint => this.(checkpoint := c)
      case Products => this.(products := c)
      case Series => this.(series := c)
    }

    /** What a firing does to its channel: one more emission, and the next
        output one interval later. */
    function Advanced(ch: Channel, interval: real): Record
    {
      WithClock(ch, Clock(ClockOf(ch).count + 1, ClockOf(ch).nextTime + interval))
    }
  }

  /** A default-constructed driver_state_t. */
  function FreshRecord(): Record
  {
    Record(0, Clock(0, 0.0), Clock(0, 0.0), Clock(0, 0.0), Clock(0, 0.0), [])
  }

  /** A firing adds exactly one to its own count and exactly one interval
      to its own next time, and leaves everything else as it was. */
  lemma AdvancedChangesOneClock(rec: Record, ch: Channel, interval: real)
    ensures rec.Advanced(ch, interval).ClockOf(ch).count == rec.ClockOf(ch).count + 1
    ensures rec.Advanced(ch, interval).ClockOf(ch).nextTime == rec.ClockOf(ch).nextTime + interval
    ensures forall other :: other != ch ==> rec.Advanced(ch, interval).ClockOf(other) == rec.ClockOf(other)
    ensures rec.Advanced(ch, interval).iteration == rec.iteration
    ensures rec.Advanced(ch, interval).timeseriesData == rec.timeseriesData
  {
  }

  class DriverState {
    var iteration: int
    var messageCount: int
    var checkpointCount: int
    var productsCount: int
    var timeseriesCount: int
    var nextMessageTime: real
    var nextCheckpointTime: real
    var nextProductsTime: real
    var nextTimeseriesTime: real
    var timeseriesData: seq<Column>

    /** The fields as a Record. */
    function Value(): Record
      reads this
    {
      Record(iteration,
             Clock(messageCount, nextMessageTime),
             Clock(checkpointCount, nextCheckpointTime),
             Clock(productsCount, nextProductsTime),
             Clock(timeseriesCount, nextTimeseriesTime),
             timeseriesData)
    }

    /** driver_state_t{}: every counter and clock zero, no columns. */
    constructor ()
      ensures Value() == FreshRecord()
    {
      iteration := 0;
      messageCount, checkpointCount, productsCount, timeseriesCount := 0, 0, 0, 0;
      nextMessageTime, nextCheckpointTime, nextProductsTime, nextTimeseriesTime := 0.0, 0.0, 0.0, 0.0;
      timeseriesData := [];
    }

    /** Writes one channel's clock: the count and next_time fields a
        scheduled output refers to. */
    method SetClock(ch: Channel, c: Clock)
      modifies this
      ensures Value() == old(Value()).WithClock(ch, c)
    {
      match ch
      case Message => messageCount, nextMessageTime := c.count, c.nextTime;
      case Checkpoint => checkpointCount, nextCheckpointTime := c.count, c.nextTime;
      case Products => productsCount, nextProductsTime := c.count, c.nextTime;
      case Series => timeseriesCount, nextTimeseriesTime := c.count, c.nextTime;
    }

    /** (*count)++; *next_time += interval. */
    method Advance(ch: Channel, interval: real)
      modifies this
      ensures Value() == old(Value()).Advanced(ch, interval)
    {
      var c := Value().ClockOf(ch);
      SetClock(ch, Clock(c.count + 1, c.nextTime + interval));
    }

    /** driver_state.iteration++. */
    method CountIteration()
      modifies this
      ensures Value() == old(Value()).(iteration := old(iteration) + 1)
    {
      iteration := iteration + 1;
    }

    /** accumulate_timeseries_sample: each (name, value) pair of the sample
        in turn is appended to the column of that name, or starts a new
        column at the end of the table. */
    method AccumulateTimeseriesSample(sample: seq<(string, real)>)
      modifies this
      ensures Value() == old(Value()).(timeseriesData := Accumulated(old(timeseriesData), sample))
    {
      var k := 0;
      while k < |sample|
        invariant 0 <= k <= |sample|
        invariant Value() == old(Value()).(timeseriesData := Accumulated(old(timeseriesData), sample[..k]))
      {
        var (name, value) := sample[k];
        var i := FindColumnIndex(timeseriesData, name);
        if i < |timeseriesData| {
          timeseriesData := timeseriesData[i := Column(name, timeseriesData[i].values + [value])];
        } else {
          timeseriesData := timeseriesData + [Column(name, [value])];
        }
        assert sample[..k + 1][..k] == sample[..k];
        k := k + 1;
      }
      assert sample[..k] == sample;
    }
  }
}
