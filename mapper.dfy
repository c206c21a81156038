/** The mapper, seen from the driver: it receives (previous, current) state
    pairs, and its scheduler hands out cancellable timer handles. The clock
    and the firing of timers belong to the event loop and are not modelled;
    a timer is only ever Pending, Cancelled or Fired. */
module Mapper {
  import opened ControllerState

  datatype TimerStatus = Pending | Cancelled | Fired

  datatype Timer = Timer(delay: real, status: TimerStatus)

  /** Cancelling marks a timer that has not fired yet; it does nothing to one that has. */
  function CancelTimer(t: Timer): (r: Timer)
    ensures r.delay == t.delay && !r.status.Pending?
    ensures t.status.Fired? ==> r == t
  {
    if t.status.Pending? then t.(status := Cancelled) else t
  }

  class Mapper {
    /** Every timer handed out so far; a handle is an index into this list. */
    var timers: seq<Timer>
    /** Every (previous, current) pair passed to input(), in order. */
    var received: seq<(State, State)>

    constructor ()
      ensures timers == [] && received == []
    {
      timers := [];
      received := [];
    }

    /** schedule(delay, callback): a fresh pending timer. */
    method Schedule(delay: real) returns (h: nat)
      modifies this
      ensures h == |old(timers)| && timers == old(timers) + [Timer(delay, Pending)]
      ensures received == old(received)
    {
      h := |timers|;
      timers := timers + [Timer(delay, Pending)];
    }

    /** task.cancel() */
    method Cancel(h: nat)
      requires h < |timers|
      modifies this
      ensures timers == old(timers)[h := CancelTimer(old(timers)[h])]
      ensures received == old(received)
    {
      timers := timers[h := CancelTimer(timers[h])];
    }

    /** The event loop takes a pending timer off its queue before running its callback. */
    method Fire(h: nat)
      requires h < |timers| && timers[h].status.Pending?
      modifies this
      ensures timers == old(timers)[h := old(timers)[h].(status := Fired)]
      ensures received == old(received)
    {
      timers := timers[h := timers[h].(status := Fired)];
    }

    /** mapper.input(controller, old_state, new_state) */
    method Input(previous: State, current: State)
      modifies this
      ensures received == old(received) + [(previous, current)]
      ensures timers == old(timers)
    {
      received := received + [(previous, current)];
    }
  }
}
