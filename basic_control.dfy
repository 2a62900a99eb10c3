/** The basic mapping: sticks copied to slots 0-3, both triggers always
    remapped to [0, 1] in slots 4 and 5, a deadzone mask over the whole
    vector, the gripper in slot 6. */
module BasicControl {
  import opened Joystick

  /** The mask factor of one reading: 1 when its magnitude reaches the
      deadzone, 0 when it is below. */
  function MaskBit(v: real): (m: real)
  {
    if Abs(v) >= DEADZONE then 1.0 else 0.0
  }

  /** The whole-vector deadzone: every entry multiplied by its mask factor.
      Entries below the deadzone become exactly zero; the rest are kept. */
  function Deadzoned(s: seq<real>): (r: seq<real>)
    ensures |r| == |s|
    ensures forall i :: 0 <= i < |s| ==> (r[i] == 0.0 <==> Abs(s[i]) < DEADZONE)
    ensures forall i :: 0 <= i < |s| ==> r[i] == 0.0 || r[i] == s[i]
  {
    if s == [] then [] else [s[0] * MaskBit(s[0])] + Deadzoned(s[1..])
  }

  /** The action vector one tick computes from the axes and held buttons,
      slot by slot, before the suppression rule. */
  function Actions(axes: seq<real>, buttons: set<nat>): (a: seq<real>)
    requires |axes| == NUM_AXES
    ensures |a| == ACTION_DIM
  {
    [ApplyDeadzone(axes[0]), ApplyDeadzone(axes[1]), ApplyDeadzone(axes[2]), ApplyDeadzone(axes[3]),
     ApplyDeadzone(TriggerRemap(axes[4])), ApplyDeadzone(TriggerRemap(axes[5])),
     GripperCommand(buttons)]
  }

  /** What one call of the mapping returns: None for an all-zero vector. */
  function Result(axes: seq<real>, buttons: set<nat>): (r: Option<seq<real>>)
    requires |axes| == NUM_AXES
  {
    Suppress(Actions(axes, buttons))
  }

  class Controller {
    /** Last gripper intent seen: None before any gripper button, then
        Some(true) for close and Some(false) for open. */
    var gripperClose: Option<bool>

    constructor ()
      ensures gripperClose == None
    {
      gripperClose := None;
    }

    /** Reads one snapshot and maps it to an action vector, or None when
        no control is in use; records the gripper intent. */
    method GetActions(axes: seq<real>, buttons: set<nat>) returns (r: Option<seq<real>>)
      requires |axes| == NUM_AXES
      modifies this
      ensures r == Result(axes, buttons)
      ensures gripperClose == GripperIntent(old(gripperClose), buttons)
    {
      var actions := new real[ACTION_DIM](_ => 0.0);

      // Sticks: first four degrees of freedom.
      for i := 0 to 4
        modifies actions
        invariant forall k :: 0 <= k < i ==> actions[k] == axes[k]
        invariant forall k :: i <= k < ACTION_DIM ==> actions[k] == 0.0
      {
        actions[i] := axes[i];
      }

      // Triggers: remapped from [-1, 1] to [0, 1].
      var rtValue := axes[4];
      actions[4] := (rtValue + 1.0) / 2.0;
      var ltValue := axes[5];
      actions[5] := (ltValue + 1.0) / 2.0;

      // Deadzone mask over the whole vector.
      var masked := Deadzoned(actions[..]);

      // Gripper: open is checked before close.
      if OPEN_BUTTON in buttons {
        gripperClose := Some(false);
        masked := masked[GRIPPER_SLOT := 1.0];
      } else if CLOSE_BUTTON in buttons {
        gripperClose := Some(true);
        masked := masked[GRIPPER_SLOT := -1.0];
      }

      forall i | 0 <= i < ACTION_DIM
        ensures masked[i] == Actions(axes, buttons)[i]
      {
        if i < GRIPPER_SLOT {
          assert actions[..][i] == if i < 4 then axes[i] else TriggerRemap(axes[i]);
        }
      }
      assert masked == Actions(axes, buttons);
      if IsNoOp(masked) {
        return None;
      }
      return Some(masked);
    }
  }

  /** Each stick slot is exactly zero below the deadzone and exactly the raw
      reading otherwise. */
  lemma StickSlots(axes: seq<real>, buttons: set<nat>, i: nat)
    requires |axes| == NUM_AXES && i < 4
    ensures Actions(axes, buttons)[i] == 0.0 <==> Abs(axes[i]) < DEADZONE
    ensures Actions(axes, buttons)[i] != 0.0 ==> Actions(axes, buttons)[i] == axes[i] && Abs(axes[i]) >= DEADZONE
  {
  }

  /** Trigger slots are never negative: zero while the trigger is short of
      -0.8, otherwise its remapped travel, which then lies in [0.1, 1]. */
  lemma TriggerSlots(axes: seq<real>, buttons: set<nat>, i: nat)
    requires ValidAxes(axes) && (i == 4 || i == 5)
    ensures axes[i] < -0.8 ==> Actions(axes, buttons)[i] == 0.0
    ensures axes[i] >= -0.8 ==> Actions(axes, buttons)[i] == (axes[i] + 1.0) / 2.0
    ensures Actions(axes, buttons)[i] == 0.0 || DEADZONE <= Actions(axes, buttons)[i] <= 1.0
  {
  }

  /** The gripper slot and the recorded intent: open wins over close, and
      with neither button held the slot is 0 and the intent is kept. */
  lemma GripperSlot(axes: seq<real>, buttons: set<nat>, prev: Option<bool>)
    requires |axes| == NUM_AXES
    ensures OPEN_BUTTON in buttons ==>
      Actions(axes, buttons)[6] == 1.0 && GripperIntent(prev, buttons) == Some(false)
    ensures OPEN_BUTTON !in buttons && CLOSE_BUTTON in buttons ==>
      Actions(axes, buttons)[6] == -1.0 && GripperIntent(prev, buttons) == Some(true)
    ensures OPEN_BUTTON !in buttons && CLOSE_BUTTON !in buttons ==>
      Actions(axes, buttons)[6] == 0.0 && GripperIntent(prev, buttons) == prev
  {
  }

  /** Given readings in [-1, 1], every slot lies in [-1, 1]. */
  lemma SlotsBounded(axes: seq<real>, buttons: set<nat>)
    requires ValidAxes(axes)
    ensures forall i :: 0 <= i < ACTION_DIM ==> -1.0 <= Actions(axes, buttons)[i] <= 1.0
  {
  }

  /** The mapping reports None exactly when the sticks are inside the
      deadzone, both triggers are short of -0.8 and no gripper button is
      held. */
  lemma NoOpExactly(axes: seq<real>, buttons: set<nat>)
    requires ValidAxes(axes)
    ensures Result(axes, buttons) == None <==>
      (forall i :: 0 <= i < 4 ==> Abs(axes[i]) < DEADZONE) &&
      axes[4] < -0.8 && axes[5] < -0.8 &&
      OPEN_BUTTON !in buttons && CLOSE_BUTTON !in buttons
  {
    var a := Actions(axes, buttons);
    assert a[4] == ApplyDeadzone(TriggerRemap(axes[4])) && -1.0 <= axes[4];
    assert a[5] == ApplyDeadzone(TriggerRemap(axes[5])) && -1.0 <= axes[5];
    if forall i :: 0 <= i < 4 ==> Abs(axes[i]) < DEADZONE {
      assert a[0] == 0.0 && a[1] == 0.0 && a[2] == 0.0 && a[3] == 0.0;
    }
    if Result(axes, buttons) == None {
      forall i | 0 <= i < 4 ensures Abs(axes[i]) < DEADZONE {
        assert a[i] == 0.0;
      }
      assert a[4] == 0.0 && a[5] == 0.0;
    }
  }

  /** The intent recorded by a call changes only on a call that returns a
      vector. */
  lemma IntentChangesOnlyWithOutput(axes: seq<real>, buttons: set<nat>, prev: Option<bool>)
    requires |axes| == NUM_AXES
    ensures GripperIntent(prev, buttons) != prev ==> Result(axes, buttons) != None
  {
  }

  /** Two concrete ticks: everything at rest gives None; sticks and a fully
      pressed right trigger with the open button give the full vector. */
  lemma Scenarios()
    ensures Result([0.0, 0.0, 0.0, 0.0, -1.0, -1.0], {}) == None
    ensures Result([0.5, -0.5, 0.2, 0.0, 1.0, -1.0], {OPEN_BUTTON})
         == Some([0.5, -0.5, 0.2, 0.0, 1.0, 0.0, 1.0])
    ensures Actions([0.0, 0.0, 0.0, 0.0, 0.0, -1.0], {})[4] == 0.5
  {
  }
}
