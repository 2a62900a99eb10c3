/** Definitions shared by both mappings from a game-controller snapshot to a
    seven-slot robot action vector: the device snapshot, the constants the two
    mappings use, the trigger remap, the gripper buttons and the rule that
    suppresses an all-zero vector. */
module Joystick {

  datatype Option<+T> = None | Some(value: T)

  /** Number of analog axes read per tick: two sticks (0-3) and two triggers (4, 5). */
  const NUM_AXES: nat := 6
  /** Length of the action vector: slots 0-5 are joint velocities, slot 6 the gripper. */
  const ACTION_DIM: nat := 7
  /** Index of the gripper slot in the action vector. */
  const GRIPPER_SLOT: nat := 6

  /** Continuous slot values whose magnitude is below this are treated as
      noise: the stick slots in both mappings, and the trigger slots too in
      the basic mapping. */
  const DEADZONE: real := 0.1
  /** A trigger counts as pressed only when its raw value exceeds this. */
  const PRESS_THRESHOLD: real := -0.9

  /** Button that opens the gripper ("X"); it is checked first. */
  const OPEN_BUTTON: nat := 3
  /** Button that closes the gripper ("B"). */
  const CLOSE_BUTTON: nat := 1

  /** A well-formed snapshot of the analog axes: six readings, each in [-1, 1]. */
  predicate ValidAxes(axes: seq<real>)
  {
    |axes| == NUM_AXES && forall i :: 0 <= i < |axes| ==> -1.0 <= axes[i] <= 1.0
  }

  function Abs(x: real): (r: real)
    ensures r >= 0.0 && (r == x || r == -x)
  {
    if x < 0.0 then -x else x
  }

  /** A reading once the deadzone has been applied: exactly zero when its
      magnitude is below the deadzone, the reading itself otherwise. */
  function ApplyDeadzone(raw: real): (v: real)
    ensures v == 0.0 <==> Abs(raw) < DEADZONE
    ensures v != 0.0 ==> v == raw
  {
    if Abs(raw) < DEADZONE then 0.0 else raw
  }

  /** Remaps a trigger reading from its travel [-1, 1] (rest at -1) to [0, 1]. */
  function TriggerRemap(raw: real): (r: real)
    ensures 2.0 * r - 1.0 == raw
    ensures -1.0 <= raw <= 1.0 ==> 0.0 <= r <= 1.0
    ensures r == 0.0 <==> raw == -1.0
  {
    (raw + 1.0) / 2.0
  }

  /** The gripper command for the buttons held: open (+1) wins over close (-1);
      neither held leaves the slot at 0. */
  function GripperCommand(buttons: set<nat>): (g: real)
    ensures g == 1.0 || g == 0.0 || g == -1.0
    ensures g == 1.0 <==> OPEN_BUTTON in buttons
    ensures g == -1.0 <==> OPEN_BUTTON !in buttons && CLOSE_BUTTON in buttons
  {
    if OPEN_BUTTON in buttons then 1.0
    else if CLOSE_BUTTON in buttons then -1.0
    else 0.0
  }

  /** The recorded gripper intent after a tick: Some(false) means "open",
      Some(true) means "close"; with neither button held it is kept. */
  function GripperIntent(prev: Option<bool>, buttons: set<nat>): (intent: Option<bool>)
  {
    if OPEN_BUTTON in buttons then Some(false)
    else if CLOSE_BUTTON in buttons then Some(true)
    else prev
  }

  /** The recorded intent always agrees with the command written to the
      gripper slot in the same tick, and it changes only when that command is
      not the no-op. */
  lemma IntentFollowsCommand(prev: Option<bool>, buttons: set<nat>)
    ensures GripperCommand(buttons) == 1.0 ==> GripperIntent(prev, buttons) == Some(false)
    ensures GripperCommand(buttons) == -1.0 ==> GripperIntent(prev, buttons) == Some(true)
    ensures GripperCommand(buttons) == 0.0 <==> GripperIntent(prev, buttons) == prev
                                                && OPEN_BUTTON !in buttons && CLOSE_BUTTON !in buttons
    ensures GripperIntent(prev, buttons) != prev ==> GripperCommand(buttons) != 0.0
  {
  }

  /** True when no slot of an action vector asks for movement. */
  predicate IsNoOp(actions: seq<real>)
    requires |actions| == ACTION_DIM
  {
    (forall i :: 0 <= i < GRIPPER_SLOT ==> actions[i] == 0.0) && actions[GRIPPER_SLOT] == 0.0
  }

  /** The suppression rule: an all-zero vector is reported as None, any
      other vector is returned whole. */
  function Suppress(actions: seq<real>): (r: Option<seq<real>>)
    requires |actions| == ACTION_DIM
    ensures r == None <==> forall i :: 0 <= i < |actions| ==> actions[i] == 0.0
    ensures r != None ==> r == Some(actions)
  {
    if IsNoOp(actions) then None else Some(actions)
  }
}
