/** DS5Controller, the USB HID driver: the haptic feedback engine with its
    single pending shut-off timer, the output mailbox and its flush, the
    lightbar configuration, the touch-bit override applied to decoded input
    and the button map given to the decoder. */
module Ds5Hid {
  import opened Wrappers
  import opened Numeric
  import opened HidOutput
  import opened ControllerState
  import opened Mapper
  import opened Haptics
  import opened Lightbar

  /** One handle.interruptWrite(endpoint, data) call. */
  datatype Write = Write(endpoint: nat, data: seq<byte>)

  const OUTPUT_ENDPOINT: nat := 3
  const FEEDBACK_ID := "feedback"
  const LIGHTBAR_ID := "lightbar"

  /** The feedback record as the constructor builds it: DS5 mode, haptics
      enabled, both motors off. */
  function InitialFeedback(): (o: Output)
    ensures o.motorLeft == 0 && o.motorRight == 0
  {
    Zeroed().(operatingMode := DS5_MODE, physicalEffectControl := ENABLE_HAPTICS)
  }

  /** The byte of an input report whose top bit says the touchpad is NOT touched. */
  const TOUCH_STATUS_BYTE := 33

  /** The override input() applies after a successful decode:
      ord(data[33]) >> 7 set clears CPADTOUCH, clear sets it. */
  function CpadTouchOverride(s: State, touchStatus: byte): (r: State)
    ensures CPadTouch in r.buttons <==> touchStatus < 0x80
    ensures SameExceptButton(s, r, CPadTouch)
  {
    if touchStatus / 128 != 0 then s.(buttons := s.buttons - {CPadTouch})
    else s.(buttons := s.buttons + {CPadTouch})
  }

  /** A shut-off timer cancelled, when there is one to cancel. */
  function CancelIfAny(timers: seq<Timer>, task: Option<nat>): (r: seq<Timer>)
    ensures |r| == |timers|
    ensures forall h :: 0 <= h < |timers| && task != Some(h) ==> r[h] == timers[h]
    ensures task.Some? && task.value < |timers| ==> r[task.value] == CancelTimer(timers[task.value])
  {
    if task.Some? && task.value < |timers| then timers[task.value := CancelTimer(timers[task.value])] else timers
  }

  predicate Distinct(ids: seq<string>)
  {
    forall i, j :: 0 <= i < j < |ids| ==> ids[i] != ids[j]
  }

  /** The writes a flush performs when it pops the pending ids in the given order. */
  function WritesFor(pending: map<string, Output>, order: seq<string>): (w: seq<Write>)
    requires forall i :: 0 <= i < |order| ==> order[i] in pending
    ensures |w| == |order|
    ensures forall i :: 0 <= i < |order| ==> w[i] == Write(OUTPUT_ENDPOINT, Packet(pending[order[i]]))
  {
    if order == [] then []
    else WritesFor(pending, order[..|order| - 1]) + [Write(OUTPUT_ENDPOINT, Packet(pending[order[|order| - 1]]))]
  }

  lemma WritesForAppend(pending: map<string, Output>, order: seq<string>, id: string)
    requires forall i :: 0 <= i < |order| ==> order[i] in pending
    requires id in pending
    ensures WritesFor(pending, order + [id]) == WritesFor(pending, order) + [Write(OUTPUT_ENDPOINT, Packet(pending[id]))]
  {
    assert (order + [id])[..|order|] == order;
  }

  lemma {:induction false} DistinctCard(ids: seq<string>)
    requires Distinct(ids)
    ensures |set id | id in ids| == |ids|
  {
    if ids != [] {
      var front := ids[..|ids| - 1];
      DistinctCard(front);
      assert (set id | id in ids) == (set id | id in front) + {ids[|ids| - 1]};
      assert ids[|ids| - 1] !in (set id | id in front);
    }
  }

  lemma DistinctCover(ids: seq<string>, keys: set<string>)
    requires Distinct(ids) && forall id :: id in ids <==> id in keys
    ensures |ids| == |keys|
  {
    DistinctCard(ids);
    assert (set id | id in ids) == keys;
  }

  /** The loop invariant of flush: order lists the ids popped so far, rest
      the entries not yet popped, and each popped id's packet was written. */
  ghost predicate FlushProgress(pending: map<string, Output>, written: seq<Write>, order: seq<string>,
                                rest: map<string, Output>, writes: seq<Write>)
  {
    && Distinct(order)
    && (forall i :: 0 <= i < |order| ==> order[i] in pending)
    && rest.Keys == pending.Keys - (set id | id in order)
    && (forall id :: id in rest ==> rest[id] == pending[id])
    && writes == written + WritesFor(pending, order)
  }

  lemma FlushStep(pending: map<string, Output>, written: seq<Write>, order: seq<string>,
                  rest: map<string, Output>, writes: seq<Write>, id: string)
    requires FlushProgress(pending, written, order, rest, writes) && id in rest
    ensures FlushProgress(pending, written, order + [id], rest - {id},
                          writes + [Write(OUTPUT_ENDPOINT, Packet(rest[id]))])
    ensures id !in (set x | x in order)
  {
    assert id !in order;
    AppendFresh(order, id);
    WritesForAppend(pending, order, id);
    assert (rest - {id}).Keys == rest.Keys - {id};
  }

  /** Appending an id not yet listed keeps the list distinct and adds it to its set. */
  lemma AppendFresh(ids: seq<string>, id: string)
    requires Distinct(ids) && id !in ids
    ensures Distinct(ids + [id])
    ensures (set x | x in ids + [id]) == (set x | x in ids) + {id}
  {
  }

  lemma FlushDone(pending: map<string, Output>, written: seq<Write>, order: seq<string>,
                  rest: map<string, Output>, writes: seq<Write>)
    requires FlushProgress(pending, written, order, rest, writes) && rest == map[]
    ensures Distinct(order) && |order| == |pending.Keys|
    ensures forall id :: id in order <==> id in pending
    ensures writes == written + WritesFor(pending, order)
  {
    assert rest.Keys == {};
    assert (set id | id in order) == pending.Keys;
    DistinctCover(order, pending.Keys);
  }

  /** A sequence of schedule_output calls applied to the mailbox. */
  function Enqueue(pending: map<string, Output>, calls: seq<(string, Output)>): (m: map<string, Output>)
    ensures m.Keys == pending.Keys + set i | 0 <= i < |calls| :: calls[i].0
  {
    if calls == [] then pending
    else Enqueue(pending, calls[..|calls| - 1])[calls[|calls| - 1].0 := calls[|calls| - 1].1]
  }

  /** Last write wins: the entry for an id is the value of its last
      schedule_output call. */
  lemma {:induction false} LastWriteWins(pending: map<string, Output>, calls: seq<(string, Output)>, i: nat)
    requires i < |calls| && forall j :: i < j < |calls| ==> calls[j].0 != calls[i].0
    ensures calls[i].0 in Enqueue(pending, calls) && Enqueue(pending, calls)[calls[i].0] == calls[i].1
  {
    if i < |calls| - 1 {
      LastWriteWins(pending, calls[..|calls| - 1], i);
    }
  }

  /** An id no call names keeps its entry, or its absence. */
  lemma {:induction false} UntouchedEntriesKept(pending: map<string, Output>, calls: seq<(string, Output)>, id: string)
    requires forall j :: 0 <= j < |calls| ==> calls[j].0 != id
    ensures id in Enqueue(pending, calls) <==> id in pending
    ensures id in pending ==> Enqueue(pending, calls)[id] == pending[id]
  {
    if calls != [] {
      UntouchedEntriesKept(pending, calls[..|calls| - 1], id);
    }
  }

  /** An entry of DS5Controller.BUTTON_MAP: an SCButtons flag, or the 1 << 64
      placeholder of the two slots with no button. */
  datatype ButtonSlot = Mapped(button: Button) | Placeholder

  const BUTTON_MAP: seq<ButtonSlot> := [
    Mapped(X), Mapped(A), Mapped(B), Mapped(Y), Mapped(LB), Mapped(RB), Placeholder, Placeholder,
    Mapped(Back), Mapped(Start), Mapped(StickPress), Mapped(RPad), Mapped(C), Mapped(CPadPress)]

  /** The bit index given to unused slots. */
  const UNUSED_BIT := 64

  /** The decoder's button map after _load_hid_descriptor: the identity in
      test mode; otherwise button_to_bit of BUTTON_MAP in its first 14 slots
      and 64 in every other one. */
  function ButtonMapImage(size: nat, testMode: bool, buttonToBit: ButtonSlot -> int): (m: seq<int>)
    requires size >= |BUTTON_MAP|
    ensures |m| == size
  {
    seq(size, i requires 0 <= i < size =>
      if testMode then i else if i < |BUTTON_MAP| then buttonToBit(BUTTON_MAP[i]) else UNUSED_BIT)
  }

  /** The button-map loops of _load_hid_descriptor, over a map of BUTTON_COUNT
      slots; button_to_bit is the parent driver's and is taken as given. */
  method FillButtonMap(buttonMap: array<int>, testMode: bool, buttonToBit: ButtonSlot -> int)
    requires buttonMap.Length >= |BUTTON_MAP|
    modifies buttonMap
    ensures buttonMap[..] == ButtonMapImage(buttonMap.Length, testMode, buttonToBit)
  {
    if testMode {
      for x := 0 to buttonMap.Length
        invariant forall i :: 0 <= i < x ==> buttonMap[i] == i
      {
        buttonMap[x] := x;
      }
    } else {
      for x := 0 to buttonMap.Length
        invariant forall i :: 0 <= i < x ==> buttonMap[i] == UNUSED_BIT
      {
        buttonMap[x] := UNUSED_BIT;
      }
      for x := 0 to |BUTTON_MAP|
        invariant forall i :: 0 <= i < x ==> buttonMap[i] == buttonToBit(BUTTON_MAP[i])
        invariant forall i :: x <= i < buttonMap.Length ==> buttonMap[i] == UNUSED_BIT
      {
        buttonMap[x] := buttonToBit(BUTTON_MAP[x]);
      }
    }
  }

  class DS5Controller {
    /** _outputs: the mailbox of records waiting for the next flush. */
    var outputs: map<string, Output>
    /** _feedback_output: the record feedback() edits and enqueues. */
    var feedbackOutput: Output
    /** _feedback_cancel_task: the handle of the last shut-off timer scheduled. */
    var feedbackCancelTask: Option<nat>
    /** Every shut-off timer this controller has scheduled. */
    ghost var clearHandles: set<nat>
    var mapper: Mapper?
    /** What handle.interruptWrite has been given, oldest first. */
    var writes: seq<Write>
    /** The decoder's old_state and state. */
    var decoderOldState: State
    var decoderState: State

    /** The shut-off discipline: the cancel-task field names one of this
        controller's timers, and no other of them is still pending. */
    ghost predicate Valid()
      reads this, mapper
    {
      && (feedbackCancelTask.Some? ==> feedbackCancelTask.value in clearHandles)
      && (mapper == null ==> clearHandles == {})
      && (mapper != null ==> forall h :: h in clearHandles ==> h < |mapper.timers|)
      && OneLiveClear()
    }

    /** At most one of this controller's shut-off timers is pending: the
        one the cancel-task field names. */
    ghost predicate OneLiveClear()
      reads this, mapper
    {
      mapper != null ==>
        forall h :: h in clearHandles && h < |mapper.timers| && mapper.timers[h].status.Pending? ==>
          feedbackCancelTask == Some(h)
    }

    /** The mailbox holds the feedback record itself: in the driver the
        'feedback' entry is a reference to _feedback_output. */
    ghost predicate FeedbackEntryCurrent()
      reads this
    {
      FEEDBACK_ID in outputs ==> outputs[FEEDBACK_ID] == feedbackOutput
    }

    constructor (mapper: Mapper?, idle: State)
      ensures Valid() && FeedbackEntryCurrent()
      ensures this.mapper == mapper && outputs == map[] && writes == []
      ensures feedbackOutput == InitialFeedback() && feedbackCancelTask == None && clearHandles == {}
      ensures decoderOldState == idle && decoderState == idle
    {
      this.mapper := mapper;
      outputs := map[];
      feedbackOutput := InitialFeedback();
      feedbackCancelTask := None;
      clearHandles := {};
      writes := [];
      decoderOldState, decoderState := idle, idle;
    }

    /** schedule_output: the entry for id is replaced, every other entry stays. */
    method ScheduleOutput(id: string, output: Output)
      modifies this`outputs
      ensures outputs == old(outputs)[id := output]
      ensures forall k :: k != id ==> (k in outputs <==> k in old(outputs))
      ensures forall k :: k != id && k in outputs ==> outputs[k] == old(outputs)[k]
    {
      outputs := outputs[id := output];
    }

    /** feedback: set the motor bytes, enqueue the record, cancel the previous
        shut-off timer and schedule a new one after Duration(period, count). */
    method Feedback(position: HapticPos, amplitude: int, period: int, count: int)
      requires Valid() && mapper != null
      modifies this, mapper
      ensures Valid() && FeedbackEntryCurrent() && mapper == old(mapper)
      ensures feedbackOutput == ApplyMotors(old(feedbackOutput), position, amplitude)
      ensures outputs == old(outputs)[FEEDBACK_ID := feedbackOutput]
      ensures var n := |old(mapper.timers)|;
        && mapper.timers == CancelIfAny(old(mapper.timers), old(feedbackCancelTask)) + [Timer(Duration(period, count), Pending)]
        && feedbackCancelTask == Some(n) && clearHandles == old(clearHandles) + {n}
        && forall h :: h in clearHandles && h != n ==> !mapper.timers[h].status.Pending?
      ensures mapper.received == old(mapper.received) && writes == old(writes)
      ensures decoderOldState == old(decoderOldState) && decoderState == old(decoderState)
    {
      feedbackOutput := ApplyMotors(feedbackOutput, position, amplitude);
      var duration := Duration(period, count);
      ScheduleOutput(FEEDBACK_ID, feedbackOutput);
      if feedbackCancelTask.Some? {
        mapper.Cancel(feedbackCancelTask.value);
      }
      var h := mapper.Schedule(duration);
      feedbackCancelTask := Some(h);
      clearHandles := clearHandles + {h};
    }

    /** clear_feedback, the shut-off callback: both motors off, record enqueued again. */
    method ClearFeedback()
      modifies this`feedbackOutput, this`outputs
      ensures feedbackOutput == old(feedbackOutput).(motorRight := 0, motorLeft := 0)
      ensures outputs == old(outputs)[FEEDBACK_ID := feedbackOutput]
      ensures FeedbackEntryCurrent()
    {
      feedbackOutput := feedbackOutput.(motorRight := 0, motorLeft := 0);
      ScheduleOutput(FEEDBACK_ID, feedbackOutput);
    }

    /** The event loop fires this controller's pending shut-off timer,
        which can only be the one the cancel-task field names; afterwards none is pending. */
    method OnClearFired(h: nat)
      requires Valid() && mapper != null
      requires h in clearHandles && h < |mapper.timers| && mapper.timers[h].status.Pending?
      modifies this, mapper
      ensures Valid() && FeedbackEntryCurrent() && mapper == old(mapper)
      ensures old(feedbackCancelTask) == Some(h) && feedbackCancelTask == Some(h) && clearHandles == old(clearHandles)
      ensures mapper.timers == old(mapper.timers)[h := old(mapper.timers)[h].(status := Fired)]
      ensures forall k :: k in clearHandles ==> !mapper.timers[k].status.Pending?
      ensures feedbackOutput == old(feedbackOutput).(motorRight := 0, motorLeft := 0)
      ensures outputs == old(outputs)[FEEDBACK_ID := feedbackOutput]
      ensures mapper.received == old(mapper.received) && writes == old(writes)
      ensures decoderOldState == old(decoderOldState) && decoderState == old(decoderState)
    {
      mapper.Fire(h);
      ClearFeedback();
    }

    /** One round of flush: popitem() takes out some pending entry, and its
        packet is written to endpoint 3. */
    method PopAndWrite() returns (ghost id: string)
      requires outputs != map[]
      modifies this`outputs, this`writes
      ensures id in old(outputs) && outputs == old(outputs) - {id}
      ensures writes == old(writes) + [Write(OUTPUT_ENDPOINT, Packet(old(outputs)[id]))]
    {
      var outputId :| outputId in outputs;
      var output := outputs[outputId];
      outputs := outputs - {outputId};
      writes := writes + [Write(OUTPUT_ENDPOINT, Packet(output))];
      id := outputId;
    }

    /** flush: pop every pending entry, in no particular order, writing its
        64-byte packet to endpoint 3; the mailbox ends empty. */
    method Flush() returns (ghost order: seq<string>)
      modifies this`outputs, this`writes
      ensures outputs == map[]
      ensures Distinct(order) && |order| == |old(outputs).Keys|
      ensures forall id :: id in order <==> id in old(outputs)
      ensures writes == old(writes) + WritesFor(old(outputs), order)
    {
      ghost var pending := outputs;
      ghost var written := writes;
      order := [];
      while outputs != map[]
        invariant FlushProgress(pending, written, order, outputs, writes)
        decreases pending.Keys - (set id | id in order)
      {
        ghost var before, writesBefore := outputs, writes;
        var id := PopAndWrite();
        FlushStep(pending, written, order, before, writesBefore, id);
        order := order + [id];
      }
      FlushDone(pending, written, order, outputs, writes);
    }

    /** configure: enqueue the lightbar record, replacing any pending one. */
    method Configure(icon: Option<string> := None, ledLevel: int := 100)
      requires IconAccepted(icon)
      modifies this`outputs
      ensures outputs == old(outputs)[LIGHTBAR_ID := LightbarOutput(icon, ledLevel)]
      ensures outputs[LIGHTBAR_ID].operatingMode == DS5_MODE
      ensures outputs[LIGHTBAR_ID].lightEffectControl == LIGHTBAR_CONTROL_ENABLE
    {
      ScheduleOutput(LIGHTBAR_ID, LightbarOutput(icon, ledLevel));
    }

    /** input: decoded is what the external decoder made of data, None when it
        rejected the packet; given (old_state, state), the CPADTOUCH override
        is applied and the pair is forwarded, both only when a mapper is set. */
    method Input(data: seq<byte>, decoded: Option<(State, State)>)
      requires decoded.Some? && mapper != null ==> |data| > TOUCH_STATUS_BYTE
      modifies this`decoderOldState, this`decoderState, mapper
      ensures mapper != null ==> mapper.timers == old(mapper.timers)
      ensures decoded.None? ==> decoderOldState == old(decoderOldState) && decoderState == old(decoderState)
      ensures decoded.None? && mapper != null ==> mapper.received == old(mapper.received)
      ensures decoded.Some? ==> decoderOldState == decoded.value.0
      ensures decoded.Some? && mapper == null ==> decoderState == decoded.value.1
      ensures decoded.Some? && mapper != null ==>
        && decoderState == CpadTouchOverride(decoded.value.1, data[TOUCH_STATUS_BYTE])
        && mapper.received == old(mapper.received) + [(decoderOldState, decoderState)]
    {
      if decoded.Some? {
        decoderOldState, decoderState := decoded.value.0, decoded.value.1;
        if mapper != null {
          decoderState := CpadTouchOverride(decoderState, data[TOUCH_STATUS_BYTE]);
          mapper.Input(decoderOldState, decoderState);
        }
      }
    }
  }
}
