# DualSense driver model

A Dafny model of the sc-controller driver for the Sony DualSense gamepad,
`scc/drivers/ds5drv.py`. The driver has two halves.

- **DS5Controller**, the USB HID driver.
  - It keeps an output mailbox of 48-byte `DualSenseHIDOutput` records, keyed by
    purpose (`'feedback'`, `'lightbar'`). A later record for the same purpose
    replaces an earlier one.
  - `flush` pops every pending record and writes it, padded to 64 bytes, to
    interrupt endpoint 3.
  - `feedback` turns a haptic command into motor bytes. It schedules a single
    shut-off timer, cancelling the previous one.
  - `configure` picks a lightbar colour from the number in the icon name and
    scales it by the LED level.
  - `input` forces the CPADTOUCH button from the top bit of byte 33 of the
    report before the state goes to the mapper.
- **DS5EvdevController**, the driver built on the kernel's evdev devices. It is
  used when acquiring the USB device fails, and for pads connected over Bluetooth.
  - It folds batches of motion-sensor and touchpad evdev events into the
    controller state. It tells the mapper only when some event replaced the state.
  - `make_evdev_device` picks the controller, the motion sensor and the touchpad
    among the evdev devices that a pad shows up as.

Modules:

| module | file | what it holds |
|---|---|---|
| `Wrappers` | wrappers.dfy | `Option` |
| `Numeric` | numeric.dfy | `byte`; Python `int()` on floats as truncation (`Trunc`, `TruncDiv`); the ctypes `c_ubyte` wrap (`ToUByte`) |
| `Text` | text.dfy | `"%s" % n`; Python 2 `int()` on strings; `rsplit(c, 1)`; `split(c)[0]` |
| `HidOutput` | hid_output.dfy | the enum constants; the output record; its byte image; the 64-byte packet |
| `ControllerState` | controller_state.dfy | the controller state handed to the mapper; buttons as a set of flags |
| `Mapper` | mapper.dfy | the mapper as the driver sees it: an input log and a scheduler of cancellable timers |
| `Haptics` | haptics.dfy | motor bytes and the shut-off delay of `feedback` |
| `Lightbar` | lightbar.dfy | colour selection and the lightbar record of `configure` |
| `ControllerIds` | controller_ids.dfy | `_generate_id` |
| `Ds5Hid` | ds5_hid.dfy | the `DS5Controller` class, the mailbox, flush, the button map, the touch override |
| `EvdevFusion` | evdev_fusion.dfy | the `DS5EvdevController` class and its two event callbacks |
| `EvdevDiscovery` | evdev_discovery.dfy | `make_evdev_device` |

Modelling choices:

- Python floats are exact reals. `int()` is truncation toward zero.
  Assigning to a `c_ubyte` field keeps the value modulo 256.
- The `SCButtons` bitmask is a set of flags, so `b | F` is `b + {F}` and
  `b & ~F` is `b - {F}`.
- `_replace` is a datatype update. "A replacement happened" is returned
  beside the folded state. The source tests `new_state is not self._state`,
  which is an identity test, so a replacement that leaves every value as it
  was still counts as a replacement.
- `dict.popitem()` takes out an arbitrary entry. `Flush` is proved for every
  order in which entries could be popped. The order it used is returned as a
  ghost value.
- The mapper's scheduler is a list of timers; a handle is an index into it.
  `DS5Controller.Valid` keeps the feedback discipline: at most one of the
  controller's shut-off timers is pending, and it is the one
  `_feedback_cancel_task` names.
- The mailbox entry `'feedback'` is the same Python object as
  `_feedback_output`. The model stores a value and proves that the entry
  stays equal to the field (`FeedbackEntryCurrent`).
- Half amplitude, 0x4000, gives the right motor 0x7f and not 0x80: the code
  truncates 0x4000/0x8000·0xff = 127.5 (`Haptics.MotorExamples`).

## Model

| member | source | states |
|---|---|---|
| `Numeric.Trunc` | scc/drivers/ds5drv.py:276-277 | `int()` of a float rounds toward zero: the result is within 1 of x, on x's side of zero |
| `Numeric.TruncDiv` | scc/drivers/ds5drv.py:475 | integer division rounding toward zero: its bounds, for either sign of the numerator |
| `Numeric.ToUByte` | scc/drivers/ds5drv.py:64-89 | a `c_ubyte` keeps an in-range int and otherwise keeps it modulo 256 |
| `Numeric.TruncOfQuotient` | scc/drivers/ds5drv.py:275-277 | truncating the real quotient n/d equals integer division toward zero |
| `Text.DecimalString` | scc/drivers/ds5drv.py:359 | `"%s" % n` is a non-empty string of digits with no leading zero |
| `Text.ParseInt` | scc/drivers/ds5drv.py:314-317 | Python 2 `int()` of a string: a negative result needs a '-' in the text; malformed text is `None` (the ValueError); the accepted texts are exactly those of `ParseIntOfSyntax` and `ParseIntSyntax` |
| `Text.ParseSigned` | scc/drivers/ds5drv.py:315 | once the outer white space is gone, a negative result needs a leading '-' |
| `Text.ParseIntOfSyntax` | scc/drivers/ds5drv.py:314-318 | white space, an optional '+' or '-', white space, one or more decimal digits, white space: `int()` accepts it and gives the signed value of the digits |
| `Text.ParseIntSyntax` | scc/drivers/ds5drv.py:314-317 | every text `int()` accepts has that shape, and the result is the signed value of its digits; everything else is the ValueError |
| `Text.ParseIntExamples` | scc/drivers/ds5drv.py:315 | white space may follow the sign: `int(" + 3 ")` is 3 |
| `Text.ParseDecimal` | scc/drivers/ds5drv.py:315 | `int()` of the decimal form of a natural n gives back n |
| `Text.DecimalStringInjective` | scc/drivers/ds5drv.py:359 | distinct naturals format to distinct strings |
| `Text.AfterLast` | scc/drivers/ds5drv.py:311-313 | the last part of `rsplit(c, 1)`: has no c, is a suffix, is all of s when c is absent, and is preceded by c otherwise |
| `Text.BeforeLast` | scc/drivers/ds5drv.py:310 | the first part of `rsplit(c, 1)`: it, then c, then the last part, spell s |
| `Text.SplitAtLastJoin` | scc/drivers/ds5drv.py:310-313 | splitting a + c + b at its last c, where b has no c, gives back a and b |
| `Text.BeforeFirst` | scc/drivers/ds5drv.py:585 | `split(c)[0]` is a prefix with no c, followed by c when it is shorter than s |
| `HidOutput.Zeroed` | scc/drivers/ds5drv.py:328-334 | fields not named at construction are zero: the image of the fresh record is 48 zero bytes |
| `HidOutput.Serialize` | scc/drivers/ds5drv.py:64-89 | the record image is 48 bytes |
| `HidOutput.Packet` | scc/drivers/ds5drv.py:371 | the packet is 64 bytes |
| `HidOutput.SerializeLayout` | scc/drivers/ds5drv.py:64-89 | every field sits at its declared byte offset, in declaration order: mode at 0, motors at 3 and 4, the lightbar colour at 45-47 |
| `HidOutput.PacketLayout` | scc/drivers/ds5drv.py:371 | a packet is the record image followed by 16 zero bytes |
| `HidOutput.ParseSerialize` | scc/drivers/ds5drv.py:64-89 | reading back a record image gives the record |
| `HidOutput.Parse` | scc/drivers/ds5drv.py:64-89 | every 48-byte string is the image of the record read from it, so records and their images correspond one to one (with `ParseSerialize`) |
| `HidOutput.PacketInjective` | scc/drivers/ds5drv.py:371 | different records never produce the same packet |
| `Mapper.CancelTimer` | scc/drivers/ds5drv.py:298-299 | a cancelled timer is no longer pending and keeps its delay; cancelling a fired timer changes nothing |
| `Mapper.Mapper.constructor` | scc/drivers/ds5drv.py:300 | a new scheduler has no timers, and the mapper has received no input |
| `Mapper.Mapper.Schedule` | scc/drivers/ds5drv.py:300 | `schedule` appends a pending timer with the given delay and returns its handle |
| `Mapper.Mapper.Cancel` | scc/drivers/ds5drv.py:299 | `cancel` changes only that timer |
| `Mapper.Mapper.Fire` | scc/drivers/ds5drv.py:294-296 | the event loop marks a pending timer fired before running its callback |
| `Mapper.Mapper.Input` | scc/drivers/ds5drv.py:267-270 | `mapper.input` appends one (previous, current) pair and touches no timer |
| `Haptics.RightMotor` | scc/drivers/ds5drv.py:275-277 | for every amplitude, the right motor byte is amplitude*0xff divided by 0x8000 toward zero, then wrapped to a byte |
| `Haptics.LeftMotor` | scc/drivers/ds5drv.py:275-277 | for every amplitude, the left motor byte is amplitude*0x80 divided by 0x8000 toward zero, then wrapped to a byte |
| `Haptics.ApplyMotors` | scc/drivers/ds5drv.py:279-286 | LEFT sets only the left motor, RIGHT only the right one, BOTH sets both; the rest of the record is unchanged |
| `Haptics.Duration` | scc/drivers/ds5drv.py:288-290 | the delay is the larger of period*count/0x10000 and 20 ms |
| `Haptics.MotorBytesInRange` | scc/drivers/ds5drv.py:275-286 | for amplitudes 0..0x8000 nothing wraps: right = amplitude*0xff div 0x8000 ≤ 0xff; left = amplitude div 256 ≤ 0x80 |
| `Haptics.MotorBytesMonotone` | scc/drivers/ds5drv.py:275-277 | a larger amplitude never drives either motor less |
| `Haptics.LeftIsHalfOfRight` | scc/drivers/ds5drv.py:280-286 | the heavier left motor gets half the right motor's drive, to within one step |
| `Haptics.MotorExamples` | scc/drivers/ds5drv.py:275-277 | 0x8000 gives left 0x80 and right 0xff; 0x4000 gives left 0x40 and right 0x7f |
| `Haptics.ZeroPeriodDuration` | scc/drivers/ds5drv.py:288-290 | a zero period always gives the 20 ms floor |
| `Lightbar.IconSuffix` | scc/drivers/ds5drv.py:310-313 | the text `int()` is applied to never contains '-' |
| `Lightbar.IconIndex` | scc/drivers/ds5drv.py:313-317 | the parsed icon index is never negative, so `ICON_COLORS[icon_idx]` can never index from the end |
| `Lightbar.SelectColor` | scc/drivers/ds5drv.py:308-320 | the chosen colour is always a palette entry |
| `Lightbar.PaletteColor` | scc/drivers/ds5drv.py:308-320 | an index past the palette, or no index, leaves the default blue; an index inside the palette selects exactly that entry |
| `Lightbar.DefaultColorCases` | scc/drivers/ds5drv.py:308-320 | no icon, an empty icon, a suffix that is not an integer, or an index ≥ 7 gives blue |
| `Lightbar.NumberedIconColor` | scc/drivers/ds5drv.py:309-320 | an icon named stem-k.ext has index k and selects entry k when k < 7, blue when k ≥ 7 |
| `Lightbar.IndexedColor` | scc/drivers/ds5drv.py:319-320 | an icon whose suffix parses as k selects entry k, or blue past the palette |
| `Lightbar.NumberedIconSuffix` | scc/drivers/ds5drv.py:310-313 | the suffix of stem-k.ext is the decimal form of k |
| `Lightbar.Channel` | scc/drivers/ds5drv.py:322-326 | with a channel in 0..1 and a level in 0..100, the byte is floor(c*level*255/100), with no wrap |
| `Lightbar.ScaledInRange` | scc/drivers/ds5drv.py:322-326 | in that range the scaled channel lies in 0..255 and truncation is the floor |
| `Lightbar.ChannelAtMost` | scc/drivers/ds5drv.py:322-326 | a channel byte never exceeds 255*level/100 |
| `Lightbar.PaletteChannelsAtMost` | scc/drivers/ds5drv.py:322-326 | the same bound for all three channels of any palette entry |
| `Lightbar.LightbarRecord` | scc/drivers/ds5drv.py:328-334 | the record has DS5 mode, lightbar enable and the three given channels; every other field is as in the zero record |
| `Lightbar.LightbarOutput` | scc/drivers/ds5drv.py:307-334 | the 'lightbar' record is the record of some palette colour scaled by the level, and no channel exceeds 255*level/100 |
| `Lightbar.FullLevelChannels` | scc/drivers/ds5drv.py:92-100 | at full level every palette channel gives 0 or 255, except green 0.4, which gives 102 |
| `Lightbar.LightbarPacket` | scc/drivers/ds5drv.py:328-335 | the lightbar packet has DS5 mode at byte 0, lightbar enable at byte 2, the scaled colour at 45-47, and zero everywhere else |
| `Lightbar.LightbarRecordPacket` | scc/drivers/ds5drv.py:328-334 | the same packet layout, for any three channel bytes |
| `Lightbar.HalfLevelYellow` | scc/drivers/ds5drv.py:96 | palette entry 3 is yellow; at level 50 its channels are 127, 127, 0 |
| `ControllerIds.CandidateId` | scc/drivers/ds5drv.py:357-359 | every candidate id starts with "ds5" |
| `ControllerIds.CandidateIdInjective` | scc/drivers/ds5drv.py:357-359 | different rounds of the search try different ids |
| `ControllerIds.NotYetTried` | scc/drivers/ds5drv.py:358-360 | round n tries an id that no earlier round tried, which is why the search terminates |
| `ControllerIds.GenerateId` | scc/drivers/ds5drv.py:351-361 | the returned id is not active, and it is the first candidate "ds5", "ds5:1", "ds5:2", … that is free |
| `Ds5Hid.InitialFeedback` | scc/drivers/ds5drv.py:132-137 | the initial feedback record has both motors off |
| `Ds5Hid.CpadTouchOverride` | scc/drivers/ds5drv.py:262-266 | CPADTOUCH is set exactly when the top bit of byte 33 is clear; nothing else in the state changes |
| `Ds5Hid.CancelIfAny` | scc/drivers/ds5drv.py:298-299 | only the timer `_feedback_cancel_task` names is cancelled, and only when there is one |
| `Ds5Hid.WritesFor` | scc/drivers/ds5drv.py:369-372 | one write per popped id, in pop order: endpoint 3 and that id's 64-byte packet |
| `Ds5Hid.WritesForAppend` | scc/drivers/ds5drv.py:369-372 | popping one more id appends exactly its write |
| `Ds5Hid.DistinctCard` | scc/drivers/ds5drv.py:369-370 | a pop order with no repeats is as long as the set of ids it pops |
| `Ds5Hid.Enqueue` | scc/drivers/ds5drv.py:363-364 | a run of `schedule_output` calls leaves entries for exactly the ids that were pending or named by a call |
| `Ds5Hid.LastWriteWins` | scc/drivers/ds5drv.py:363-364 | after a run of `schedule_output` calls, an id's entry is the value of its last call |
| `Ds5Hid.UntouchedEntriesKept` | scc/drivers/ds5drv.py:363-364 | an id that no call names keeps its entry, or stays absent |
| `Ds5Hid.ButtonMapImage` | scc/drivers/ds5drv.py:247-254 | the button map has one slot per button |
| `Ds5Hid.FillButtonMap` | scc/drivers/ds5drv.py:247-254 | test mode gives the identity; otherwise the first 14 slots hold `button_to_bit` of BUTTON_MAP and every other slot holds 64 |
| `Ds5Hid.DS5Controller.constructor` | scc/drivers/ds5drv.py:130-138 | an empty mailbox, the initial feedback record, no shut-off task, and the discipline `Valid` |
| `Ds5Hid.DS5Controller.ScheduleOutput` | scc/drivers/ds5drv.py:363-364 | the entry for the id is replaced; every other entry stays, and so does its absence |
| `Ds5Hid.DS5Controller.Feedback` | scc/drivers/ds5drv.py:272-300 | motor bytes per position; the record is enqueued; the previous shut-off timer is cancelled and one new timer is pending for the computed delay; afterwards none of the controller's other timers is pending |
| `Ds5Hid.DS5Controller.ClearFeedback` | scc/drivers/ds5drv.py:294-296 | both motors off, everything else in the record kept, and the record enqueued again |
| `Ds5Hid.DS5Controller.OnClearFired` | scc/drivers/ds5drv.py:294-300 | a pending shut-off timer that fires can only be the one `_feedback_cancel_task` names; afterwards none of the controller's timers is pending and both motors are off; the decoder state is unchanged |
| `Ds5Hid.DS5Controller.PopAndWrite` | scc/drivers/ds5drv.py:370-372 | one `popitem` removes some pending entry and writes its packet to endpoint 3 |
| `Ds5Hid.DS5Controller.Flush` | scc/drivers/ds5drv.py:366-372 | the mailbox ends empty; every pending id is popped exactly once, in some order; the writes are that order's packets on endpoint 3 |
| `Ds5Hid.DS5Controller.Configure` | scc/drivers/ds5drv.py:307-335 | the 'lightbar' entry becomes the lightbar record for icon and level, with DS5 mode and lightbar enable set; the other entries stay |
| `Ds5Hid.DS5Controller.Input` | scc/drivers/ds5drv.py:258-270 | a rejected report changes nothing; an accepted one updates the decoder state; with a mapper, CPADTOUCH is overridden and the pair is forwarded exactly once |
| `EvdevFusion.GyroStep` | scc/drivers/ds5drv.py:470-476 | a motion-sensor event replaces the state exactly when it is EV_ABS with code RX, RY or RZ; it changes only pitch, yaw and roll |
| `EvdevFusion.TouchStep` | scc/drivers/ds5drv.py:489-517 | a touchpad event replaces the state exactly when it is EV_ABS with an MT position code, or a non-EV_ABS, non-EV_SYN event with code BTN_LEFT or BTN_TOUCH; it changes only the pad flags and pad position |
| `EvdevFusion.Step` | scc/drivers/ds5drv.py:470-517 | one event of either callback changes only the part of the state that callback drives |
| `EvdevFusion.Fold` | scc/drivers/ds5drv.py:467-517 | a whole batch changes only that part too |
| `EvdevFusion.ConfinedTrans` | scc/drivers/ds5drv.py:467-517 | two changes confined to a callback's part compose into one |
| `EvdevFusion.ReplacedIff` | scc/drivers/ds5drv.py:481-484 | a batch counts as replacing the state exactly when one of its events replaces the state reached at that point |
| `EvdevFusion.UnreplacedUnchanged` | scc/drivers/ds5drv.py:481 | a batch that replaces nothing leaves the state as it was |
| `EvdevFusion.FoldAppend` | scc/drivers/ds5drv.py:489-517 | folding a batch in two pieces is folding the whole batch |
| `EvdevFusion.GyroValue` | scc/drivers/ds5drv.py:430-433 | pitch, yaw and roll get value/100 rounded toward zero, on the axis GYRO_MAP names |
| `EvdevFusion.QuaternionBatchIgnored` | scc/drivers/ds5drv.py:434-436 | a batch of quaternion and non-EV_ABS events replaces nothing, so nothing is emitted |
| `EvdevFusion.SynBatchIgnored` | scc/drivers/ds5drv.py:499-500 | EV_SYN events replace nothing on the touchpad |
| `EvdevFusion.PadPress` | scc/drivers/ds5drv.py:501-507 | BTN_LEFT with value 1 sets CPADPRESS, any other value clears it, and nothing else changes |
| `EvdevFusion.PadTouch` | scc/drivers/ds5drv.py:508-517 | BTN_TOUCH with value 1 sets CPADTOUCH; any other value clears it and recentres the pad at 0, 0 |
| `EvdevFusion.ReleaseThenSyn` | scc/drivers/ds5drv.py:512-525 | a release followed only by EV_SYN events ends the batch released, centred and emitted |
| `EvdevFusion.PadPosition` | scc/drivers/ds5drv.py:490-498 | x is STICK_PAD_MIN plus the scaled value; y is STICK_PAD_MAX minus the scaled value |
| `EvdevFusion.PressWhilePressed` | scc/drivers/ds5drv.py:522 | pressing an already pressed pad gives an equal state, and it is still emitted |
| `EvdevFusion.TouchStepShift` | scc/drivers/ds5drv.py:489-517 | a touchpad event depends only on the touchpad part of the state and changes nothing outside it |
| `EvdevFusion.WithTouchTwice` | scc/drivers/ds5drv.py:489-517 | overwriting the touchpad part twice keeps only the second |
| `EvdevFusion.TouchFoldShift` | scc/drivers/ds5drv.py:486-517 | the same holds for a whole touchpad batch, including whether it replaces the state |
| `EvdevFusion.GyroFoldShift` | scc/drivers/ds5drv.py:467-476 | a motion-sensor batch depends only on pitch, yaw and roll and changes nothing else |
| `EvdevFusion.GyroTouchCommute` | scc/drivers/ds5drv.py:463-465 | a motion-sensor batch and a touchpad batch give the same state in either order |
| `EvdevFusion.DS5EvdevController.constructor` | scc/drivers/ds5drv.py:446-465 | the callbacks start from the given state and mapper |
| `EvdevFusion.DS5EvdevController.FoldBatch` | scc/drivers/ds5drv.py:487-517 | the loop over a batch computes the fold: the final state and whether anything replaced it |
| `EvdevFusion.DS5EvdevController.ReadInput` | scc/drivers/ds5drv.py:486-525 | an IOError changes nothing; otherwise the folded state is stored, and (old, new) goes to the mapper exactly once when the batch replaced the state, and never otherwise |
| `EvdevFusion.DS5EvdevController.GyroInput` | scc/drivers/ds5drv.py:467-484 | `_gyro_input`: as ReadInput, and only pitch, yaw and roll can change |
| `EvdevFusion.DS5EvdevController.TouchpadInput` | scc/drivers/ds5drv.py:486-525 | `_touchpad_input`: as ReadInput, and only the pad flags and pad position can change |
| `EvdevDiscovery.RolesExclusive` | scc/drivers/ds5drv.py:577-601 | the roles `Plays` assigns split the devices: an 8-axis device is neither motion sensor nor touchpad, no device is both, and a 6-axis device at the prefix is one of the two |
| `EvdevDiscovery.LastWith` | scc/drivers/ds5drv.py:575-579 | the loop's choice is the last device that plays the role, or none exactly when no device does |
| `EvdevDiscovery.PhysPrefix` | scc/drivers/ds5drv.py:585 | the address part of phys is a prefix of it with no '/' |
| `EvdevDiscovery.Correlate` | scc/drivers/ds5drv.py:570-604 | as written: no device exactly when there is no 8-axis device, or no sibling of either kind matching the last listed device's prefix; otherwise the last device of each role |
| `EvdevDiscovery.PrefixLastWith` | scc/drivers/ds5drv.py:586-601 | one more loop round keeps the choice, or moves it to the current device when that device plays the role |
| `EvdevDiscovery.FindController` | scc/drivers/ds5drv.py:574-579 | the first loop keeps the last 8-axis device |
| `EvdevDiscovery.FindSiblings` | scc/drivers/ds5drv.py:584-601 | the second loop keeps the last motion sensor and the last touchpad whose phys starts with the prefix |
| `EvdevDiscovery.MakeEvdevDevice` | scc/drivers/ds5drv.py:570-604 | the two loops and the final test compute `Correlate` |
| `EvdevDiscovery.CorrelateIntended` | scc/drivers/ds5drv.py:583 | corrected: the siblings must share the controller's address prefix |
| `EvdevDiscovery.IntendedIgnoresUnrelated` | scc/drivers/ds5drv.py:583-586 | corrected: a device listed last that is not a controller and has another address changes nothing |
| `EvdevDiscovery.SampleCorrelates` | scc/drivers/ds5drv.py:570-604 | a controller, its motion sensor and its touchpad at one address are found by both versions |
| `EvdevDiscovery.StrayLastMatchesNothing` | scc/drivers/ds5drv.py:585 | as written: with a device at another address listed last, nothing is found |
| `EvdevDiscovery.LastDeviceDecidesPrefix` | scc/drivers/ds5drv.py:585 | as written a stray last device loses a complete pad that the corrected version still finds |

## Left out

- USB and evdev I/O are parameters. `interruptWrite` is recorded as a list of writes. `device.read()` is a batch or an IOError. `grab`, `ungrab`, the poller and `close` are not modelled.
- `super().flush()` in `flush`, and the parent constructors of both drivers, belong to the parent classes. The parent classes are not part of this model.
- `_lib.decode`, the C decoder, is a parameter of `Input`: the states it produced, or `None` when it rejected the report.
- `button_to_bit` comes from the parent class. It is taken as an arbitrary function.
- `TOUCH_FACTOR_X/Y`: `int(value * TOUCH_FACTOR)` is taken as arbitrary functions `sx`, `sy`. The factors depend on pad geometry constants that are not part of this model.
- Floating point: floats are exact reals. Rounding of `value * 0.01` and similar products is not modelled.
- Timers: the clock and the order in which the event loop fires timers are not modelled. A timer can fire only through `OnClearFired`, and only the feedback shut-off is scheduled.
- Logging, `fail_cb`, `init` and the hotplug registration are not modelled. Neither are `get_type`, `get_gyro_enabled`, `get_gui_config_file`, `__repr__` and `apply_config`; they return constants or forward their config.
- `Ds5Hid.DS5Controller.Feedback` requires a mapper. In the source, a missing mapper raises AttributeError at line 300 after the record is enqueued.
- `Ds5Hid.DS5Controller.Configure` requires a non-empty icon to contain '.'. Otherwise the two-way unpacking at line 310 raises ValueError.
- `Ds5Hid.DS5Controller.Input` requires more than 33 bytes of data when the report decodes and a mapper is set. Otherwise `data[33]` raises IndexError.
- `EvdevFusion.DS5EvdevController.GyroInput` requires every EV_ABS code to be in GYRO_MAP. Otherwise the lookup at line 472 raises KeyError.
- `Haptics.HapticPos` has only LEFT, RIGHT and BOTH. A position outside the enum, which leaves both motors as they are, is not modelled.
- `Text.ParseInt`: a unicode icon name is not modelled. `int()` of a unicode string also accepts non-ASCII digits and white space; strings here are byte strings, so only ASCII digits and the six ASCII white-space characters count.
- `configure` takes `led_level` as an integer. The source accepts any number `float()` takes.
- `_generate_id` at lines 551-561 repeats the one at lines 351-361 and is modelled by the same `ControllerIds.GenerateId`. `get_active_ids()` is its parameter.

## Findings

| source | as written | input that shows it | evidently intended | confidence | as-written member | corrected member |
|---|---|---|---|---|---|---|
| scc/drivers/ds5drv.py:585 | the address prefix is taken from `device`, the loop variable left over from the first loop, which is the last listed device | `SAMPLE_DEVICES + [STRAY_DEVICE]`: a controller, motion sensor and touchpad at "a/…", then a device at "b/0"; the prefix becomes "b", so no siblings match and nothing is made | the prefix of `controllerdevice`, as the comment on line 583 says | not executed | `EvdevDiscovery.LastDeviceDecidesPrefix` | `EvdevDiscovery.IntendedIgnoresUnrelated` |
