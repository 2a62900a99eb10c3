/** How the two mappings relate: they agree on the sticks and the gripper,
    and each basic trigger slot is the deadzoned magnitude of the gated one. */
module Variants {
  import opened Joystick
  import VelocityControl
  import BasicControl

  /** Stick slots and the gripper slot are computed alike by both mappings.
      Both specifications build these slots from the shared `ApplyDeadzone`
      and `GripperCommand`, so this lemma records that sharing rather than
      proving a separate fact. */
  lemma SameSticksAndGripper(axes: seq<real>, buttons: set<nat>)
    requires |axes| == NUM_AXES
    ensures forall i :: 0 <= i < 4 ==>
      BasicControl.Actions(axes, buttons)[i] == VelocityControl.Actions(axes, buttons)[i]
    ensures BasicControl.Actions(axes, buttons)[GRIPPER_SLOT] == VelocityControl.Actions(axes, buttons)[GRIPPER_SLOT]
  {
  }

  /** A basic trigger slot drops the polarity and the press threshold of the
      gated one and applies the deadzone instead. */
  lemma TriggerSlotsRelated(axes: seq<real>, buttons: set<nat>, i: nat)
    requires ValidAxes(axes) && (i == 4 || i == 5)
    ensures BasicControl.Actions(axes, buttons)[i] == ApplyDeadzone(Abs(VelocityControl.Actions(axes, buttons)[i]))
  {
  }
}
