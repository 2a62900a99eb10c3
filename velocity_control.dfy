/** The polarity-gated mapping used for joint-velocity teleoperation: sticks
    copied to slots 0-3 with a deadzone, each trigger registered only past a
    press threshold and signed by a companion button, the gripper in slot 6. */
module VelocityControl {
  import opened Joystick

  /** Button whose state signs trigger slot 4 (held: positive). */
  const RT_POLARITY_BUTTON: nat := 7
  /** Button whose state signs trigger slot 5 (held: positive). */
  const LT_POLARITY_BUTTON: nat := 6

  /** The value of a trigger slot: zero unless pressed past the threshold,
      otherwise the remapped travel signed by the companion button. */
  function GatedTrigger(raw: real, positive: bool): (v: real)
  {
    if raw > PRESS_THRESHOLD then (if positive then 1.0 else -1.0) * TriggerRemap(raw) else 0.0
  }

  /** The action vector one tick computes from the axes and held buttons,
      slot by slot, before the suppression rule. */
  function Actions(axes: seq<real>, buttons: set<nat>): (a: seq<real>)
    requires |axes| == NUM_AXES
    ensures |a| == ACTION_DIM
  {
    [ApplyDeadzone(axes[0]), ApplyDeadzone(axes[1]), ApplyDeadzone(axes[2]), ApplyDeadzone(axes[3]),
     GatedTrigger(axes[4], RT_POLARITY_BUTTON in buttons),
     GatedTrigger(axes[5], LT_POLARITY_BUTTON in buttons),
     GripperCommand(buttons)]
  }

  /** What one call of the mapping returns: None for an all-zero vector. */
  function Result(axes: seq<real>, buttons: set<nat>): (r: Option<seq<real>>)
    requires |axes| == NUM_AXES
  {
    Suppress(Actions(axes, buttons))
  }

  class Controller {
    /** Last gripper intent seen: None before any gripper button, then
        Some(true) for close and Some(false) for open. */
    var gripperClose: Option<bool>

    constructor ()
      ensures gripperClose == None
    {
      gripperClose := None;
    }

    /** Reads one snapshot and maps it to an action vector, or None when
        no control is in use; records the gripper intent. */
    method GetActions(axes: seq<real>, buttons: set<nat>) returns (r: Option<seq<real>>)
      requires |axes| == NUM_AXES
      modifies this
      ensures r == Result(axes, buttons)
      ensures gripperClose == GripperIntent(old(gripperClose), buttons)
    {
      var actions := new real[ACTION_DIM](_ => 0.0);

      // Sticks: first four degrees of freedom.
      for i := 0 to 4
        modifies actions
        invariant forall k :: 0 <= k < i ==> actions[k] == axes[k]
        invariant forall k :: i <= k < ACTION_DIM ==> actions[k] == 0.0
      {
        actions[i] := axes[i];
      }

      // Triggers, each signed by its companion button.
      var rtValue := axes[4];
      var rtPolarity := if RT_POLARITY_BUTTON in buttons then 1.0 else -1.0;
      if rtValue > PRESS_THRESHOLD {
        actions[4] := rtPolarity * (rtValue + 1.0) / 2.0;
      }
      var ltValue := axes[5];
      var ltPolarity := if LT_POLARITY_BUTTON in buttons then 1.0 else -1.0;
      if ltValue > PRESS_THRESHOLD {
        actions[5] := ltPolarity * (ltValue + 1.0) / 2.0;
      }

      // Deadzone on the stick slots only.
      for i := 0 to 4
        modifies actions
        invariant forall k :: 0 <= k < i ==> actions[k] == ApplyDeadzone(axes[k])
        invariant forall k :: i <= k < 4 ==> actions[k] == axes[k]
        invariant actions[4] == GatedTrigger(axes[4], RT_POLARITY_BUTTON in buttons)
        invariant actions[5] == GatedTrigger(axes[5], LT_POLARITY_BUTTON in buttons)
        invariant actions[6] == 0.0
      {
        if Abs(actions[i]) < DEADZONE {
          actions[i] := 0.0;
        }
      }

      // Gripper: open is checked before close.
      if OPEN_BUTTON in buttons {
        gripperClose := Some(false);
        actions[6] := 1.0;
      } else if CLOSE_BUTTON in buttons {
        gripperClose := Some(true);
        actions[6] := -1.0;
      }

      assert actions[..] == Actions(axes, buttons);
      if IsNoOp(actions[..]) {
        return None;
      }
      return Some(actions[..]);
    }
  }

  /** Each stick slot is exactly zero below the deadzone and exactly the raw
      reading otherwise. */
  lemma StickSlots(axes: seq<real>, buttons: set<nat>, i: nat)
    requires |axes| == NUM_AXES && i < 4
    ensures Actions(axes, buttons)[i] == 0.0 <==> Abs(axes[i]) < DEADZONE
    ensures Actions(axes, buttons)[i] != 0.0 ==> Actions(axes, buttons)[i] == axes[i] && Abs(axes[i]) >= DEADZONE
  {
  }

  /** A trigger slot is zero at or below the press threshold; past it, it is
      the remapped travel, positive exactly when the companion button is held. */
  lemma TriggerSlots(axes: seq<real>, buttons: set<nat>)
    requires |axes| == NUM_AXES
    ensures axes[4] <= PRESS_THRESHOLD ==> Actions(axes, buttons)[4] == 0.0
    ensures axes[4] > PRESS_THRESHOLD ==>
      Abs(Actions(axes, buttons)[4]) == (axes[4] + 1.0) / 2.0 &&
      (Actions(axes, buttons)[4] > 0.0 <==> RT_POLARITY_BUTTON in buttons) &&
      (Actions(axes, buttons)[4] < 0.0 <==> RT_POLARITY_BUTTON !in buttons)
    ensures axes[5] <= PRESS_THRESHOLD ==> Actions(axes, buttons)[5] == 0.0
    ensures axes[5] > PRESS_THRESHOLD ==>
      Abs(Actions(axes, buttons)[5]) == (axes[5] + 1.0) / 2.0 &&
      (Actions(axes, buttons)[5] > 0.0 <==> LT_POLARITY_BUTTON in buttons) &&
      (Actions(axes, buttons)[5] < 0.0 <==> LT_POLARITY_BUTTON !in buttons)
  {
  }

  /** The deadzone does not reach the triggers: a pressed trigger always
      yields a slot of magnitude in (0.05, 1]. */
  lemma PressedTriggerNotZeroed(axes: seq<real>, buttons: set<nat>, i: nat)
    requires ValidAxes(axes) && (i == 4 || i == 5) && axes[i] > PRESS_THRESHOLD
    ensures 0.05 < Abs(Actions(axes, buttons)[i]) <= 1.0
  {
  }

  /** The gripper slot and the recorded intent: open wins over close, and
      with neither button held the slot is 0 and the intent is kept. */
  lemma GripperSlot(axes: seq<real>, buttons: set<nat>, prev: Option<bool>)
    requires |axes| == NUM_AXES
    ensures OPEN_BUTTON in buttons ==>
      Actions(axes, buttons)[6] == 1.0 && GripperIntent(prev, buttons) == Some(false)
    ensures OPEN_BUTTON !in buttons && CLOSE_BUTTON in buttons ==>
      Actions(axes, buttons)[6] == -1.0 && GripperIntent(prev, buttons) == Some(true)
    ensures OPEN_BUTTON !in buttons && CLOSE_BUTTON !in buttons ==>
      Actions(axes, buttons)[6] == 0.0 && GripperIntent(prev, buttons) == prev
  {
  }

  /** Given readings in [-1, 1], every slot lies in [-1, 1]. */
  lemma SlotsBounded(axes: seq<real>, buttons: set<nat>)
    requires ValidAxes(axes)
    ensures forall i :: 0 <= i < ACTION_DIM ==> -1.0 <= Actions(axes, buttons)[i] <= 1.0
  {
  }

  /** The mapping reports None exactly when the sticks are inside the
      deadzone, both triggers are released and no gripper button is held. */
  lemma NoOpExactly(axes: seq<real>, buttons: set<nat>)
    requires |axes| == NUM_AXES
    ensures Result(axes, buttons) == None <==>
      (forall i :: 0 <= i < 4 ==> Abs(axes[i]) < DEADZONE) &&
      axes[4] <= PRESS_THRESHOLD && axes[5] <= PRESS_THRESHOLD &&
      OPEN_BUTTON !in buttons && CLOSE_BUTTON !in buttons
  {
    var a := Actions(axes, buttons);
    if forall i :: 0 <= i < 4 ==> Abs(axes[i]) < DEADZONE {
      assert a[0] == 0.0 && a[1] == 0.0 && a[2] == 0.0 && a[3] == 0.0;
    }
    if Result(axes, buttons) == None {
      forall i | 0 <= i < 4 ensures Abs(axes[i]) < DEADZONE {
        assert a[i] == 0.0;
      }
      assert a[4] == 0.0 && a[5] == 0.0;
    }
  }

  /** The intent recorded by a call changes only on a call that returns a
      vector. */
  lemma IntentChangesOnlyWithOutput(axes: seq<real>, buttons: set<nat>, prev: Option<bool>)
    requires |axes| == NUM_AXES
    ensures GripperIntent(prev, buttons) != prev ==> Result(axes, buttons) != None
  {
  }

  /** Sticks centred, triggers at rest and no buttons: nothing is returned. */
  lemma RestIsNoOp()
    ensures Result([0.0, 0.0, 0.0, 0.0, -1.0, -1.0], {}) == None
  {
  }

  /** A trigger at half travel gives +0.5 with its companion button held and
      -0.5 without; below the press threshold it gives 0 either way. */
  lemma TriggerPolarityExamples()
    ensures Actions([0.0, 0.0, 0.0, 0.0, 0.0, -1.0], {RT_POLARITY_BUTTON})[4] == 0.5
    ensures Actions([0.0, 0.0, 0.0, 0.0, 0.0, -1.0], {})[4] == -0.5
    ensures Actions([0.0, 0.0, 0.0, 0.0, -0.95, -1.0], {RT_POLARITY_BUTTON})[4] == 0.0
    ensures Actions([0.0, 0.0, 0.0, 0.0, -0.95, -1.0], {})[4] == 0.0
  {
  }
}
