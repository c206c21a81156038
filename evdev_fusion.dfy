/** DS5EvdevController's motion-sensor and touchpad callbacks. Each folds one
    batch of evdev events into a new state with _replace and hands
    (old, new) to the mapper once, when at least one replacement happened.
    The test is `new_state is not self._state`, which is about identity: a
    replacement that leaves every value as it was still counts. */
module EvdevFusion {
  import opened Wrappers
  import opened Numeric
  import opened ControllerState
  import opened Mapper

  /** One input_event: type, code and value. */
  datatype Event = Event(kind: int, code: int, value: int)

  /** What device.read() yields: a batch of events, or an IOError. */
  datatype ReadResult = Events(events: seq<Event>) | IOError

  // Linux input event types and codes the callbacks look at.
  const EV_SYN := 0
  const EV_ABS := 3
  const ABS_X := 0
  const ABS_Y := 1
  const ABS_Z := 2
  const ABS_RX := 3
  const ABS_RY := 4
  const ABS_RZ := 5
  const ABS_MT_POSITION_X := 0x35
  const ABS_MT_POSITION_Y := 0x36
  const BTN_LEFT := 0x110
  const BTN_TOUCH := 0x14a

  const STICK_PAD_MIN := -32768
  const STICK_PAD_MAX := 32767

  /** The state fields the motion sensor drives. */
  datatype GyroAxis = GPitch | GYaw | GRoll

  /** GYRO_MAP: the axis an EV_ABS code drives, if any, and its factor. The
      three quaternion codes name no axis. */
  const GYRO_MAP: map<int, (Option<GyroAxis>, real)> := map[
    ABS_RX := (Some(GPitch), 0.01),
    ABS_RY := (Some(GYaw), 0.01),
    ABS_RZ := (Some(GRoll), 0.01),
    ABS_X := (None, 1.0),
    ABS_Y := (None, 1.0),
    ABS_Z := (None, -1.0)]

  /** The two callbacks. The touchpad one scales positions with
      int(value * TOUCH_FACTOR_X) and int(value * TOUCH_FACTOR_Y), taken here
      as the functions sx and sy. */
  datatype Reducer = GyroReducer | TouchReducer(sx: int -> int, sy: int -> int)

  /** The motion-sensor callback looks up the code of every EV_ABS event in
      GYRO_MAP; a code that is not there raises KeyError. */
  predicate Accepts(red: Reducer, e: Event)
  {
    red.GyroReducer? && e.kind == EV_ABS ==> e.code in GYRO_MAP
  }

  predicate AcceptsAll(red: Reducer, events: seq<Event>)
  {
    forall i :: 0 <= i < |events| ==> Accepts(red, events[i])
  }

  function SetGyro(s: State, axis: GyroAxis, v: int): (r: State)
  {
    match axis
    case GPitch => s.(gpitch := v)
    case GYaw => s.(gyaw := v)
    case GRoll => s.(groll := v)
  }

  /** The body of the motion-sensor loop for one event: Some(the replaced
      state), or None when the event replaces nothing. */
  function GyroStep(s: State, e: Event): (r: Option<State>)
    requires Accepts(GyroReducer, e)
    ensures r.Some? <==> e.kind == EV_ABS && e.code in {ABS_RX, ABS_RY, ABS_RZ}
    ensures r.Some? ==> Confined(GyroReducer, s, r.value)
  {
    if e.kind != EV_ABS then None
    else
      var (axis, factor) := GYRO_MAP[e.code];
      match axis
      case None => None
      case Some(a) => Some(SetGyro(s, a, Trunc(e.value as real * factor)))
  }

  /** The body of the touchpad loop for one event. Only the EV_ABS and EV_SYN
      types are told apart; any other type is judged by its code alone. */
  function TouchStep(sx: int -> int, sy: int -> int, s: State, e: Event): (r: Option<State>)
    ensures r.Some? <==>
      (e.kind == EV_ABS && e.code in {ABS_MT_POSITION_X, ABS_MT_POSITION_Y}) ||
      (e.kind != EV_ABS && e.kind != EV_SYN && e.code in {BTN_LEFT, BTN_TOUCH})
    ensures r.Some? ==> Confined(TouchReducer(sx, sy), s, r.value)
  {
    if e.kind == EV_ABS then
      if e.code == ABS_MT_POSITION_X then Some(s.(cpadX := STICK_PAD_MIN + sx(e.value)))
      else if e.code == ABS_MT_POSITION_Y then Some(s.(cpadY := STICK_PAD_MAX - sy(e.value)))
      else None
    else if e.kind == EV_SYN then None
    else if e.code == BTN_LEFT then
      if e.value == 1 then Some(s.(buttons := s.buttons + {CPadPress}))
      else Some(s.(buttons := s.buttons - {CPadPress}))
    else if e.code == BTN_TOUCH then
      if e.value == 1 then Some(s.(buttons := s.buttons + {CPadTouch}))
      else Some(s.(buttons := s.buttons - {CPadTouch}, cpadX := 0, cpadY := 0))
    else None
  }

  function Step(red: Reducer, s: State, e: Event): (r: Option<State>)
    requires Accepts(red, e)
    ensures r.Some? ==> Confined(red, s, r.value)
  {
    match red
    case GyroReducer => GyroStep(s, e)
    case TouchReducer(sx, sy) => TouchStep(sx, sy, s, e)
  }

  /** The loop over one batch: the state it ends with, and whether any
      event replaced it. */
  function Fold(red: Reducer, s: State, events: seq<Event>): (r: (State, bool))
    requires AcceptsAll(red, events)
    ensures Confined(red, s, r.0)
  {
    if events == [] then (s, false)
    else
      var (t, replaced) := Fold(red, s, events[..|events| - 1]);
      match Step(red, t, events[|events| - 1])
      case None => (t, replaced)
      case Some(u) =>
        ConfinedTrans(red, s, t, u);
        (u, true)
  }

  /** t differs from s only in the part of the state the callback drives:
      pitch, yaw and roll for the motion sensor; the two pad flags and the pad
      position for the touchpad. */
  predicate Confined(red: Reducer, s: State, t: State)
  {
    match red
    case GyroReducer => t == WithGyro(s, t)
    case TouchReducer(_, _) => t == WithTouch(s, t)
  }

  lemma ConfinedTrans(red: Reducer, s: State, t: State, u: State)
    requires Confined(red, s, t) && Confined(red, t, u)
    ensures Confined(red, s, u)
  {
    if red.TouchReducer? {
      var pad := {CPadPress, CPadTouch};
      assert t.buttons - pad == s.buttons - pad;
      assert u.buttons - pad == t.buttons - pad;
    }
  }

  /** Event i of the batch, met in the state the batch has reached by then,
      replaces that state. */
  predicate ReplacesAt(red: Reducer, s: State, events: seq<Event>, i: nat)
    requires AcceptsAll(red, events) && i < |events|
  {
    assert AcceptsAll(red, events[..i]);
    Step(red, Fold(red, s, events[..i]).0, events[i]).Some?
  }

  lemma PrefixReplacesAt(red: Reducer, s: State, events: seq<Event>, n: nat, i: nat)
    requires AcceptsAll(red, events) && i < n <= |events|
    ensures AcceptsAll(red, events[..n])
    ensures ReplacesAt(red, s, events[..n], i) == ReplacesAt(red, s, events, i)
  {
    assert events[..n][..i] == events[..i];
  }

  /** A batch replaces the state exactly when one of its events does. */
  lemma {:induction false} ReplacedIff(red: Reducer, s: State, events: seq<Event>)
    requires AcceptsAll(red, events)
    ensures Fold(red, s, events).1 <==> exists i :: 0 <= i < |events| && ReplacesAt(red, s, events, i)
  {
    if events != [] {
      var n := |events| - 1;
      var front := events[..n];
      assert AcceptsAll(red, front);
      ReplacedIff(red, s, front);
      if Fold(red, s, events).1 {
        if ReplacesAt(red, s, events, n) {
        } else {
          var i :| 0 <= i < n && ReplacesAt(red, s, front, i);
          PrefixReplacesAt(red, s, events, n, i);
        }
      }
      if exists i :: 0 <= i < |events| && ReplacesAt(red, s, events, i) {
        var i :| 0 <= i < |events| && ReplacesAt(red, s, events, i);
        if i < n {
          PrefixReplacesAt(red, s, events, n, i);
        }
      }
    }
  }

  /** A batch that replaces nothing leaves the state as it was. */
  lemma {:induction false} UnreplacedUnchanged(red: Reducer, s: State, events: seq<Event>)
    requires AcceptsAll(red, events)
    ensures !Fold(red, s, events).1 ==> Fold(red, s, events).0 == s
  {
    if events != [] {
      UnreplacedUnchanged(red, s, events[..|events| - 1]);
    }
  }

  /** Folding a batch in two pieces is folding the whole of it. */
  lemma {:induction false} FoldAppend(red: Reducer, s: State, a: seq<Event>, b: seq<Event>)
    requires AcceptsAll(red, a) && AcceptsAll(red, b)
    ensures AcceptsAll(red, a + b)
    ensures var (t, r1) := Fold(red, s, a);
      Fold(red, s, a + b) == (Fold(red, t, b).0, r1 || Fold(red, t, b).1)
  {
    assert AcceptsAll(red, a + b) by {
      forall i | 0 <= i < |a + b| ensures Accepts(red, (a + b)[i]) {
        if i >= |a| { assert (a + b)[i] == b[i - |a|]; }
      }
    }
    if b == [] {
      assert a + b == a;
    } else {
      var n := |b| - 1;
      assert AcceptsAll(red, b[..n]);
      FoldAppend(red, s, a, b[..n]);
      assert (a + b)[..|a + b| - 1] == a + b[..n];
      assert (a + b)[|a + b| - 1] == b[n];
    }
  }

  /** The motion sensor's pitch, yaw and roll get int(value * 0.01), which
      is value / 100 rounded toward zero. */
  lemma GyroValue(s: State, e: Event)
    requires e.kind == EV_ABS && e.code in {ABS_RX, ABS_RY, ABS_RZ}
    ensures var r := GyroStep(s, e);
      r.Some? && r.value == SetGyro(s, GyroAxisOf(e.code), TruncDiv(e.value, 100))
  {
    assert e.value as real * 0.01 == e.value as real / 100 as real;
    TruncOfQuotient(e.value, 100);
  }

  function GyroAxisOf(code: int): GyroAxis
    requires code in {ABS_RX, ABS_RY, ABS_RZ}
  {
    if code == ABS_RX then GPitch else if code == ABS_RY then GYaw else GRoll
  }

  /** A motion-sensor batch of quaternion events and non-EV_ABS events
      replaces nothing, so nothing is emitted for it. */
  lemma {:induction false} QuaternionBatchIgnored(s: State, events: seq<Event>)
    requires forall i :: 0 <= i < |events| ==>
      events[i].kind != EV_ABS || events[i].code in {ABS_X, ABS_Y, ABS_Z}
    ensures AcceptsAll(GyroReducer, events)
    ensures Fold(GyroReducer, s, events) == (s, false)
  {
    if events != [] {
      QuaternionBatchIgnored(s, events[..|events| - 1]);
    }
  }

  /** The touchpad's EV_SYN events replace nothing, whatever their code. */
  lemma {:induction false} SynBatchIgnored(sx: int -> int, sy: int -> int, s: State, events: seq<Event>)
    requires forall i :: 0 <= i < |events| ==> events[i].kind == EV_SYN
    ensures Fold(TouchReducer(sx, sy), s, events) == (s, false)
  {
    if events != [] {
      SynBatchIgnored(sx, sy, s, events[..|events| - 1]);
    }
  }

  /** BTN_LEFT with value 1 sets CPADPRESS, with any other value clears it;
      nothing else changes. */
  lemma PadPress(sx: int -> int, sy: int -> int, s: State, e: Event)
    requires e.kind != EV_ABS && e.kind != EV_SYN && e.code == BTN_LEFT
    ensures var r := TouchStep(sx, sy, s, e);
      r.Some? && (CPadPress in r.value.buttons <==> e.value == 1) &&
      SameExceptButton(s, r.value, CPadPress)
  {
  }

  /** BTN_TOUCH with value 1 sets CPADTOUCH; any other value is a release,
      which clears it and puts the pad back at 0, 0. */
  lemma PadTouch(sx: int -> int, sy: int -> int, s: State, e: Event)
    requires e.kind != EV_ABS && e.kind != EV_SYN && e.code == BTN_TOUCH
    ensures var r := TouchStep(sx, sy, s, e);
      r.Some? && (CPadTouch in r.value.buttons <==> e.value == 1) &&
      (e.value == 1 ==> SameExceptButton(s, r.value, CPadTouch)) &&
      (e.value != 1 ==> r.value.cpadX == 0 && r.value.cpadY == 0 &&
                        SameExceptButton(s.(cpadX := 0, cpadY := 0), r.value, CPadTouch))
  {
  }

  /** A release followed only by EV_SYN events leaves the batch untouched,
      centred and emitted. */
  lemma ReleaseThenSyn(sx: int -> int, sy: int -> int, s: State, a: seq<Event>, release: Event, syn: seq<Event>)
    requires release.kind != EV_ABS && release.kind != EV_SYN && release.code == BTN_TOUCH && release.value != 1
    requires forall i :: 0 <= i < |syn| ==> syn[i].kind == EV_SYN
    ensures var (t, replaced) := Fold(TouchReducer(sx, sy), s, a + [release] + syn);
      replaced && CPadTouch !in t.buttons && t.cpadX == 0 && t.cpadY == 0
  {
    var red := TouchReducer(sx, sy);
    var t := Fold(red, s, a + [release]).0;
    assert (a + [release])[..|a|] == a;
    SynBatchIgnored(sx, sy, t, syn);
    FoldAppend(red, s, a + [release], syn);
  }

  /** The touchpad positions: x counts up from STICK_PAD_MIN, y down from STICK_PAD_MAX. */
  lemma PadPosition(sx: int -> int, sy: int -> int, s: State, e: Event)
    requires e.kind == EV_ABS && e.code in {ABS_MT_POSITION_X, ABS_MT_POSITION_Y}
    ensures var r := TouchStep(sx, sy, s, e);
      r.Some? &&
      (e.code == ABS_MT_POSITION_X ==> r.value == s.(cpadX := STICK_PAD_MIN + sx(e.value))) &&
      (e.code == ABS_MT_POSITION_Y ==> r.value == s.(cpadY := STICK_PAD_MAX - sy(e.value)))
  {
  }

  /** Replacement is about identity, not value: pressing an already pressed
      pad replaces the state with an equal one, and the batch is still emitted. */
  lemma PressWhilePressed(sx: int -> int, sy: int -> int, s: State)
    requires CPadPress in s.buttons
    ensures Fold(TouchReducer(sx, sy), s, [Event(1, BTN_LEFT, 1)]) == (s, true)
  {
    assert [Event(1, BTN_LEFT, 1)][..0] == [];
    assert s.buttons + {CPadPress} == s.buttons;
  }

  /** The part of a state the touchpad drives: the two pad flags and the pad position. */
  function TouchBits(b: set<Button>): set<Button>
  {
    b * {CPadPress, CPadTouch}
  }

  predicate SameTouch(s: State, u: State)
  {
    TouchBits(s.buttons) == TouchBits(u.buttons) && s.cpadX == u.cpadX && s.cpadY == u.cpadY
  }

  predicate SameGyro(s: State, u: State)
  {
    s.gpitch == u.gpitch && s.gyaw == u.gyaw && s.groll == u.groll
  }

  /** u with its touchpad part taken from t. */
  function WithTouch(u: State, t: State): State
  {
    u.(buttons := (u.buttons - {CPadPress, CPadTouch}) + TouchBits(t.buttons), cpadX := t.cpadX, cpadY := t.cpadY)
  }

  /** u with its motion-sensor part taken from t. */
  function WithGyro(u: State, t: State): State
  {
    u.(gpitch := t.gpitch, gyaw := t.gyaw, groll := t.groll)
  }

  /** A touchpad event acts on any state as it acts on one with the same
      touchpad part, and changes nothing outside that part. */
  lemma TouchStepShift(sx: int -> int, sy: int -> int, s: State, u: State, e: Event)
    requires SameTouch(s, u)
    ensures TouchStep(sx, sy, s, e).Some? == TouchStep(sx, sy, u, e).Some?
    ensures TouchStep(sx, sy, s, e).Some? ==>
      TouchStep(sx, sy, u, e).value == WithTouch(u, TouchStep(sx, sy, s, e).value)
  {
    var pad := {CPadPress, CPadTouch};
    assert (u.buttons - pad) + TouchBits(u.buttons) == u.buttons;
    if e.kind != EV_ABS && e.kind != EV_SYN && (e.code == BTN_LEFT || e.code == BTN_TOUCH) {
      var f := if e.code == BTN_LEFT then CPadPress else CPadTouch;
      assert TouchBits(s.buttons + {f}) == TouchBits(u.buttons) + {f};
      assert TouchBits(s.buttons - {f}) == TouchBits(u.buttons) - {f};
      assert (u.buttons - pad) + (TouchBits(u.buttons) + {f}) == u.buttons + {f};
      assert (u.buttons - pad) + (TouchBits(u.buttons) - {f}) == u.buttons - {f};
    }
  }

  lemma WithTouchTwice(u: State, t: State, x: State)
    ensures WithTouch(WithTouch(u, t), x) == WithTouch(u, x)
    ensures SameTouch(WithTouch(u, t), t)
  {
  }

  lemma {:induction false} TouchFoldShift(sx: int -> int, sy: int -> int, s: State, u: State, events: seq<Event>)
    requires SameTouch(s, u)
    ensures var red := TouchReducer(sx, sy);
      Fold(red, u, events).1 == Fold(red, s, events).1 &&
      Fold(red, u, events).0 == WithTouch(u, Fold(red, s, events).0)
  {
    var red := TouchReducer(sx, sy);
    if events == [] {
      assert WithTouch(u, s) == u;
    } else {
      var front, e := events[..|events| - 1], events[|events| - 1];
      TouchFoldShift(sx, sy, s, u, front);
      var ts, tu := Fold(red, s, front).0, Fold(red, u, front).0;
      WithTouchTwice(u, ts, ts);
      TouchStepShift(sx, sy, ts, tu, e);
      if TouchStep(sx, sy, ts, e).Some? {
        WithTouchTwice(u, ts, TouchStep(sx, sy, ts, e).value);
      }
    }
  }

  lemma {:induction false} GyroFoldShift(s: State, u: State, events: seq<Event>)
    requires SameGyro(s, u) && AcceptsAll(GyroReducer, events)
    ensures Fold(GyroReducer, u, events).1 == Fold(GyroReducer, s, events).1
    ensures Fold(GyroReducer, u, events).0 == WithGyro(u, Fold(GyroReducer, s, events).0)
  {
    if events != [] {
      GyroFoldShift(s, u, events[..|events| - 1]);
    }
  }

  /** The two callbacks drive disjoint parts of the state, so a motion-sensor
      batch and a touchpad batch give the same state in either order. */
  lemma GyroTouchCommute(sx: int -> int, sy: int -> int, s: State, gyro: seq<Event>, touch: seq<Event>)
    requires AcceptsAll(GyroReducer, gyro)
    ensures var touchRed := TouchReducer(sx, sy);
      Fold(touchRed, Fold(GyroReducer, s, gyro).0, touch).0 ==
      Fold(GyroReducer, Fold(touchRed, s, touch).0, gyro).0
  {
    var touchRed := TouchReducer(sx, sy);
    var gs := Fold(GyroReducer, s, gyro).0;
    var ts := Fold(touchRed, s, touch).0;
    GyroFoldShift(s, s, gyro);
    TouchFoldShift(sx, sy, s, s, touch);
    TouchFoldShift(sx, sy, s, gs, touch);
    GyroFoldShift(s, ts, gyro);
  }

  /** DS5EvdevController's state and mapper, as its two callbacks use them. */
  class DS5EvdevController {
    /** _state: the last state reported. */
    var state: State
    var mapper: Mapper?

    constructor (mapper: Mapper?, idle: State)
      ensures this.mapper == mapper && state == idle
    {
      this.mapper := mapper;
      state := idle;
    }

    /** The for loop over one batch, starting from _state. */
    method FoldBatch(red: Reducer, events: seq<Event>) returns (newState: State, replaced: bool)
      requires AcceptsAll(red, events)
      ensures (newState, replaced) == Fold(red, state, events)
    {
      newState, replaced := state, false;
      for i := 0 to |events|
        invariant AcceptsAll(red, events[..i])
        invariant (newState, replaced) == Fold(red, state, events[..i])
      {
        assert events[..i + 1][..i] == events[..i];
        match Step(red, newState, events[i]) {
          case None =>
          case Some(u) => newState, replaced := u, true;
        }
      }
      assert events[..|events|] == events;
    }

    /** _gyro_input and _touchpad_input: an IOError drops the batch; otherwise
        the folded state is stored and, when some event replaced the state and a
        mapper is set, (old, new) is handed to it once. */
    method ReadInput(red: Reducer, batch: ReadResult)
      requires batch.Events? ==> AcceptsAll(red, batch.events)
      modifies this`state, mapper
      ensures mapper == old(mapper)
      ensures mapper != null ==> mapper.timers == old(mapper.timers)
      ensures batch.IOError? ==> state == old(state)
      ensures batch.IOError? && mapper != null ==> mapper.received == old(mapper.received)
      ensures batch.Events? ==>
        var (t, replaced) := Fold(red, old(state), batch.events);
        && state == t
        && (mapper != null ==>
              mapper.received == old(mapper.received) + if replaced then [(old(state), t)] else [])
    {
      if batch.IOError? {
        return;
      }
      var newState, replaced := FoldBatch(red, batch.events);
      UnreplacedUnchanged(red, state, batch.events);
      if replaced {
        var oldState := state;
        state := newState;
        if mapper != null {
          mapper.Input(oldState, newState);
        }
      }
    }

    /** _gyro_input */
    method GyroInput(batch: ReadResult)
      requires batch.Events? ==> AcceptsAll(GyroReducer, batch.events)
      modifies this`state, mapper
      ensures mapper == old(mapper)
      ensures mapper != null ==> mapper.timers == old(mapper.timers)
      ensures batch.IOError? ==> state == old(state)
      ensures batch.IOError? && mapper != null ==> mapper.received == old(mapper.received)
      ensures batch.Events? ==>
        var (t, replaced) := Fold(GyroReducer, old(state), batch.events);
        && state == t && t == WithGyro(old(state), t)
        && (mapper != null ==>
              mapper.received == old(mapper.received) + if replaced then [(old(state), t)] else [])
    {
      if batch.Events? {
        GyroFoldShift(state, state, batch.events);
      }
      ReadInput(GyroReducer, batch);
    }

    /** _touchpad_input */
    method TouchpadInput(sx: int -> int, sy: int -> int, batch: ReadResult)
      modifies this`state, mapper
      ensures mapper == old(mapper)
      ensures mapper != null ==> mapper.timers == old(mapper.timers)
      ensures batch.IOError? ==> state == old(state)
      ensures batch.IOError? && mapper != null ==> mapper.received == old(mapper.received)
      ensures batch.Events? ==>
        var (t, replaced) := Fold(TouchReducer(sx, sy), old(state), batch.events);
        && state == t && t == WithTouch(old(state), t)
        && (mapper != null ==>
              mapper.received == old(mapper.received) + if replaced then [(old(state), t)] else [])
    {
      if batch.Events? {
        TouchFoldShift(sx, sy, state, state, batch.events);
      }
      ReadInput(TouchReducer(sx, sy), batch);
    }
  }
}
