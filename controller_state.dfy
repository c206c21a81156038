/** The controller-state snapshot handed to the mapper, shared by the HID and
    the evdev paths. The SCButtons bitmask is modelled as the set of its
    one-bit flags, so `b | F` is `b + {F}` and `b & ~F` is `b - {F}`. */
module ControllerState {

  datatype Button =
    | A | B | X | Y | LB | RB | Back | Start | StickPress | C
    | LPad | RPad | LPadTouch | RPadTouch | CPadPress | CPadTouch

  datatype State = State(
    buttons: set<Button>,
    ltrig: int, rtrig: int,
    stickX: int, stickY: int,
    lpadX: int, lpadY: int,
    rpadX: int, rpadY: int,
    cpadX: int, cpadY: int,
    gpitch: int, groll: int, gyaw: int,
    q1: int, q2: int, q3: int, q4: int)

  /** Two states that agree everywhere except, possibly, in button flag f. */
  predicate SameExceptButton(s: State, t: State, f: Button)
  {
    s.buttons - {f} == t.buttons - {f} && s.(buttons := t.buttons) == t
  }
}
