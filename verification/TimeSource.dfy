/** The time source of `lib/time_source.js` and the clocks it drives. */
module TimeSources {
  import opened JavaScript
  import opened Optional
  import opened Parameters
  import ParameterUpdates

  class Clock {
    var active: bool
    var time: int

    constructor () {
    }
  }

  class TimeSource {
    var attached: bool
    var active: bool
    var subscribed: bool
    var lastTime: int
    var clocks: seq<Clock>

    /** The clock topic is subscribed to exactly while a node is attached and simulated time is on. */
    predicate Subscribed()
      reads this
    {
      subscribed <==> attached && active
    }

    /** Every attached clock shows the flag and the last time. */
    predicate InStep()
      reads this, clocks
    {
      forall i | 0 <= i < |clocks| :: clocks[i].active == active && clocks[i].time == lastTime
    }

    predicate Valid()
      reads this, clocks
    {
      Subscribed() && InStep()
    }

    constructor ()
      ensures Valid() && !attached && !active && clocks == [] && lastTime == 0
    {
      attached, active, subscribed, lastTime, clocks := false, false, false, 0, [];
    }

    method Subscribe()
      modifies `subscribed
      ensures subscribed == (old(subscribed) || attached)
    {
      if !subscribed && attached {
        subscribed := true;
      }
    }

    /** The setter of `isRosTimeActive`. */
    method SetActive(enabled: bool)
      requires Valid()
      modifies this, clocks
      ensures Valid() && active == enabled
      ensures attached == old(attached) && lastTime == old(lastTime) && clocks == old(clocks)
    {
      if active == enabled {
        return;
      }
      active := enabled;
      for i := 0 to |clocks|
        invariant attached == old(attached) && active == enabled && subscribed == old(subscribed)
        invariant lastTime == old(lastTime) && clocks == old(clocks)
        invariant forall k | 0 <= k < |clocks| :: clocks[k].time == lastTime
        invariant forall k | 0 <= k < i :: clocks[k].active == enabled
      {
        clocks[i].active := enabled;
      }
      if enabled {
        Subscribe();
      } else if attached && subscribed {
        subscribed := false;
      }
    }

    method DetachNode()
      requires Valid()
      modifies this
      ensures Valid() && !attached
      ensures active == old(active) && lastTime == old(lastTime) && clocks == old(clocks)
    {
      subscribed, attached := false, false;
    }

    /**
     `attachNode` with the value found for `use_sim_time`, if that is a bool. The flag is set without
     the setter, so clocks attached earlier only stay in step if the flag does not change.
     */
    method AttachNode(useSimTime: Option<bool>)
      requires Valid()
      modifies this
      ensures attached && active == (if useSimTime.Some? then useSimTime.value else old(active))
      ensures Subscribed() && lastTime == old(lastTime) && clocks == old(clocks)
      ensures Valid() <==> clocks == [] || active == old(active)
    {
      if attached {
        DetachNode();
      }
      attached := true;
      if useSimTime.Some? {
        active := useSimTime.value;
      }
      if active {
        Subscribe();
      }
      assert clocks != [] ==> clocks[0].active == old(active);
    }

    method AttachClock(clock: Clock)
      requires Valid()
      modifies this, clock
      ensures Valid() && clocks == old(clocks) + [clock]
      ensures attached == old(attached) && active == old(active) && lastTime == old(lastTime)
    {
      clock.time := lastTime;
      clock.active := active;
      clocks := clocks + [clock];
    }

    /** `_clockCallback`: a message on the clock topic. */
    method ClockCallback(time: int)
      requires Valid()
      modifies this, clocks
      ensures Valid() && lastTime == time
      ensures attached == old(attached) && active == old(active) && clocks == old(clocks)
    {
      lastTime := time;
      for i := 0 to |clocks|
        invariant attached == old(attached) && active == old(active) && subscribed == old(subscribed)
        invariant lastTime == time && clocks == old(clocks)
        invariant forall k | 0 <= k < |clocks| :: clocks[k].active == active
        invariant forall k | 0 <= k < i :: clocks[k].time == time
      {
        clocks[i].time := time;
      }
    }

    /** The veto callback of the time source; it never vetoes. */
    method OnParameterEvent(batch: seq<Parameter>)
      requires Valid()
      modifies this, clocks
      ensures Valid() && active == ParameterUpdates.Probe(old(active), batch)
      ensures attached == old(attached) && lastTime == old(lastTime) && clocks == old(clocks)
    {
      for i := 0 to |batch|
        invariant Valid() && active == old(active)
        invariant attached == old(attached) && lastTime == old(lastTime) && clocks == old(clocks)
        invariant ParameterUpdates.Probe(active, batch) == ParameterUpdates.Probe(active, batch[i..])
      {
        if batch[i].name == ParameterUpdates.USE_SIM_TIME {
          if batch[i].kind == BOOL && batch[i].value.Bool? {
            SetActive(batch[i].value.b);
          }
          return;
        }
      }
    }
  }
}
