# Game-controller to robot-action mapping

This project models the part of the teleoperation scripts that has real logic:
`Controller.get_actions`. It turns one snapshot of a game controller into a
seven-slot robot action vector. There are two copies of the method:

- **Polarity-gated mapping** (`robosuite_joystick_velocity_control.py`, module `VelocityControl`):
  - The four stick axes are copied into slots 0-3. A deadzone of 0.1 then applies to those four slots only.
  - Each trigger (axes 4 and 5) counts only when its raw value is above -0.9.
  - A counted trigger gives `(raw + 1) / 2`. The sign is `+` while its companion button is held (button 7 for slot 4, button 6 for slot 5) and `-` otherwise.
- **Basic mapping** (`controller_test_2.py`, module `BasicControl`):
  - Both triggers are always remapped to `(raw + 1) / 2`.
  - A deadzone mask then goes over the whole vector.

Both mappings handle the gripper the same way:

- Slot 6 is `+1.0` (open) when button 3 is held. Button 3 is checked first.
- Otherwise slot 6 is `-1.0` (close) when button 1 is held, and `0.0` when neither is held.
- The controller's `gripper_close` field (`gripperClose: Option<bool>`) records the last intent. It starts as `None`.
- When all seven slots are zero, the method returns `None` instead of the vector.

The shared definitions are in module `Joystick`: the constants, the trigger remap, the scalar deadzone, the gripper command and intent, and the suppression rule. Module `Variants` relates the two mappings.

Each `Controller` is a class with its `gripperClose` field. Its `GetActions` method mirrors the source step by step:

- It fills a seven-element array with loops and element writes.
- In the basic mapping it applies the whole-vector mask through the pure function `Deadzoned`.
- It updates the field.

Each method is proved against a slot-by-slot specification function (`Actions`, with `Result` adding the suppression rule). The properties are proved as lemmas about those functions.

Device reads become parameters:

- `axes: seq<real>` is the six `get_axis` readings. Every operation requires exactly six.
- `buttons: set<nat>` is the set of pressed button ids. `get_button(i)` is `i in buttons`.

Values are `real`s.

When both gripper buttons are held, button 3 (open) is checked before button 1, so open wins (`Joystick.GripperCommand`, the `GripperSlot` lemmas). The button indices are also taken from the code (7 and 6), not from the comments next to them, which name buttons 5 and 4.

## Model

| member | source | states |
|---|---|---|
| `Joystick.ApplyDeadzone` | robosuite_joystick_velocity_control.py:63-66 | a deadzoned reading is exactly 0 iff the magnitude is below 0.1; any nonzero result is the reading itself |
| `Joystick.TriggerRemap` | controller_test_2.py:42-47 | `(raw+1)/2` is inverted by `2r-1`; it maps [-1,1] into [0,1]; it is 0 exactly at rest (-1) |
| `Joystick.GripperCommand` | robosuite_joystick_velocity_control.py:69-74 | the gripper slot is one of -1, 0, +1; it is +1 iff button 3 is held; it is -1 iff button 3 is not held and button 1 is |
| `Joystick.IntentFollowsCommand` | robosuite_joystick_velocity_control.py:69-74 | the recorded intent is "open" when the slot is +1 and "close" when it is -1; the slot is 0 iff neither button is held and the intent is kept; the intent changes only with a nonzero gripper slot |
| `Joystick.Suppress` | robosuite_joystick_velocity_control.py:77-78 | the result is None iff all seven slots are 0; otherwise it is the whole vector |
| `VelocityControl.Actions` | robosuite_joystick_velocity_control.py:42-74 | the computed vector always has exactly 7 slots |
| `VelocityControl.Controller.constructor` | robosuite_joystick_velocity_control.py:24 | a new controller has no recorded gripper intent (None) |
| `VelocityControl.Controller.GetActions` | robosuite_joystick_velocity_control.py:40-87 | the array-filling loops, trigger writes, deadzone loop and gripper writes return exactly `Suppress(Actions(axes, buttons))`; the field becomes `GripperIntent(old value, buttons)` |
| `VelocityControl.StickSlots` | robosuite_joystick_velocity_control.py:45-66 | stick slot i (0..3) is 0 iff the magnitude of axis i is below 0.1; otherwise it equals axis i, whose magnitude is then at least 0.1 |
| `VelocityControl.TriggerSlots` | robosuite_joystick_velocity_control.py:51-60 | slot 4 (5) is 0 when axis 4 (5) is at most -0.9; otherwise its magnitude is `(raw+1)/2`; it is positive iff button 7 (6) is held and negative iff it is not |
| `VelocityControl.PressedTriggerNotZeroed` | robosuite_joystick_velocity_control.py:53-66 | a pressed trigger (raw in (-0.9, 1]) gives a slot with 0.05 < magnitude <= 1; the stick deadzone never zeroes it |
| `VelocityControl.GripperSlot` | robosuite_joystick_velocity_control.py:69-74 | button 3 gives slot 6 = 1 and intent "open" whatever button 1 says; otherwise button 1 gives -1 and "close"; with neither held the slot is 0 and the intent is unchanged |
| `VelocityControl.SlotsBounded` | robosuite_joystick_velocity_control.py:42-74 | with readings in [-1,1], every slot is in [-1,1] |
| `VelocityControl.NoOpExactly` | robosuite_joystick_velocity_control.py:77-78 | the result is None iff all sticks are inside the deadzone, both triggers are at or below -0.9, and neither gripper button is held |
| `VelocityControl.IntentChangesOnlyWithOutput` | robosuite_joystick_velocity_control.py:69-78 | a call whose recorded intent differs from the previous one always returns a vector |
| `VelocityControl.RestIsNoOp` | robosuite_joystick_velocity_control.py:53-78 | sticks centred, triggers at rest (-1) and no buttons give None |
| `VelocityControl.TriggerPolarityExamples` | robosuite_joystick_velocity_control.py:51-54 | a trigger at half travel gives +0.5 with button 7 held and -0.5 without; at -0.95 it gives 0 either way |
| `BasicControl.Deadzoned` | controller_test_2.py:49-52 | the masked vector has the same length; each entry is 0 iff its magnitude is below 0.1; any other entry is unchanged |
| `BasicControl.Actions` | controller_test_2.py:33-63 | the computed vector always has exactly 7 slots |
| `BasicControl.Controller.constructor` | controller_test_2.py:17 | a new controller has no recorded gripper intent (None) |
| `BasicControl.Controller.GetActions` | controller_test_2.py:31-76 | the array-filling loop, trigger writes, whole-vector mask and gripper writes return exactly `Suppress(Actions(axes, buttons))`; the field becomes `GripperIntent(old value, buttons)` |
| `BasicControl.StickSlots` | controller_test_2.py:36-52 | stick slot i (0..3) is 0 iff the magnitude of axis i is below 0.1; otherwise it equals axis i |
| `BasicControl.TriggerSlots` | controller_test_2.py:42-52 | a trigger slot is 0 when raw < -0.8 and `(raw+1)/2` otherwise; it is never negative; it is either 0 or in [0.1, 1] |
| `BasicControl.GripperSlot` | controller_test_2.py:57-63 | button 3 wins over button 1 for slot 6 and for the intent; with neither held the slot is 0 and the intent is unchanged |
| `BasicControl.SlotsBounded` | controller_test_2.py:33-63 | with readings in [-1,1], every slot is in [-1,1] |
| `BasicControl.NoOpExactly` | controller_test_2.py:65-67 | with readings in [-1,1], the result is None iff all sticks are inside the deadzone, both triggers are below -0.8, and neither gripper button is held |
| `BasicControl.IntentChangesOnlyWithOutput` | controller_test_2.py:57-67 | a call whose recorded intent differs from the previous one always returns a vector |
| `BasicControl.Scenarios` | controller_test_2.py:36-67 | axes [0,0,0,0,-1,-1] with no buttons give None; axes [0.5,-0.5,0.2,0,1,-1] with button 3 give [0.5,-0.5,0.2,0,1,0,1]; a trigger at 0 gives 0.5 |
| `Variants.SameSticksAndGripper` | controller_test_2.py:36-63 | the basic and gated mappings produce the same stick slots and the same gripper slot (both use the shared deadzone and gripper definitions) |
| `Variants.TriggerSlotsRelated` | robosuite_joystick_velocity_control.py:51-60 | with readings in [-1,1], a basic trigger slot equals the deadzoned magnitude of the gated trigger slot for the same inputs |

## Left out

- Device setup through the joystick library (initialisation, the "no controller detected" exit, name and count reporting): foreign I/O. Axis and button reads are parameters instead.
- The diagnostic printing of nonzero slots inside `get_actions`, and the start-up banners: output only, not part of the result.
- The outer reset/step/render loops, event polling, sleeps and construction of the simulation environment in both scripts: simulator and device plumbing.
- `multiview_lift_task.py` and `single_view_all_tasks.py`: scripts around the simulator. The `joystick_control` module they import is not part of this model.
- `controller_test_1.py`: an event-printing and polling loop. Its 0.01 change threshold sits inside the I/O and is not modelled.
- Negative-zero normalisation in the basic mapping (`controller_test_2.py:55`): zero has no sign over `real`, so this step is the identity and is left out.
- Floating-point rounding of `(raw + 1) / 2` and of the products: all arithmetic is exact over `real`.
- The readings' range [-1, 1] is guaranteed by the device, not checked by the code. The methods require only six readings. The bound, no-op and cross-variant lemmas that need the range require `ValidAxes`.
- `GetActions` returns the vector as a value (`seq<real>`), not as the fresh numeric array the source returns. No caller keeps or mutates that array.
