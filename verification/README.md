# Control-logic models for Rover, Copter and AntennaTracker

A Dafny model of the decision-making code of three ArduPilot vehicles, with proofs about all inputs and all runs of it.
To check it, run `dafny verify dfyconfig.toml`.

| file | what it models |
|---|---|
| `ArduMath.dfy` | the `FLT_EPSILON` comparisons, clamping, angle wrapping, `safe_sqrt`, the 32-bit millisecond clock |
| `ThrustCurve.dfy`, `SkidMixer.dfy`, `Motors.dfy` | Rover's `AP_MotorsUGV`: thrust curve, skid-steer mixer and relay encoding, throttle requests, slewing, limit flags, channel output |
| `PilotInput.dfy` | stick decoding, Manual and Hold updates, and the chain from sticks to wheels |
| `SpeedShaping.dfy` | pivot steering, speed reduction for turns and waypoints, speed nudging |
| `RoverModes.dfy`, `RoverRuns.dfy` | Rover's mode, home and failsafe machine, and what holds over every run of it |
| `SmartRtl.dfy` | following the saved path home |
| `EkfCheck.dfy`, `ParachuteCheck.dfy`, `PayloadPlace.dfy` | Copter's EKF check, parachute check and payload-place command |
| `PilotThrottle.dfy`, `SurfaceTracking.dfy` | Copter's pilot throttle curve and rangefinder surface tracking |
| `TrackerPointing.dfy`, `TrackerScan.dfy` | AntennaTracker's frame conversions, choice of direction, angle errors and scan |

Code that updates fields is a class whose methods are proved equal to a function on a plain state value; the theorems
are about that function, over sequences of calls. Floats are real numbers. A square root is a parameter constrained by
what `safe_sqrt` returns. Sensor readings, library answers and times are inputs of each call. Time is the true number of
milliseconds, and the code sees it modulo 2^32.

## Where the code differs from what it sets out to do

Each of these is a lemma giving the exact condition, and an input where one is needed.

- Two-paddle steering, and sticks that keep their meaning in reverse, decide "reversing" on the demand; the mixer decides
  it on the slewed throttle. With a slew rate (100 by default) the vehicle turns the wrong way from the moment the stick is
  pulled back until the throttle has slewed through zero: `PilotInput.StickTurnsTheWrongWay` and
  `PilotInput.PaddlesTurnTheWrongWay` give inputs, `PilotInput.ReversalIsJudgedLate` the exact iterations,
  `PilotInput.SticksAgreeOnTravel` and `PilotInput.PaddlesAgreeOnTravel` the condition before each one.
- The two tests also differ by a factor of a hundred in size, but no stick and no paddle calibrated in the documented
  range falls between them (`PilotInput.PaddlesAreClear`); for an arbitrary demand the condition is in
  `PilotInput.JudgementsAgree`.
- The relay of a brushed motor loses the sign of a throttle smaller than `FLT_EPSILON`
  (`SkidMixer.RelayPairRecoversThrottle`).
- Lowering THR_MAX while driving faster raises both throttle limit flags at once (`Motors.BothLimitsExactly`,
  `Motors.LoweredMaxRaisesBothLimits`).
- Hold, and Manual without a radio, ask for zero throttle, but a THR_MIN turns this into driving forward at THR_MIN
  (`PilotInput.NoDemandSettlesAtMinimum`), although the comment in `mode_hold.cpp` says the motors stop.
- A negative SPEED_TURN_GAIN reverses the vehicle in a sharp turn (`SpeedShaping.NegativeGainReverses`).
- Entering Auto keeps a reverse flag set by another mode, unless the first mission commands write the flag
  (`RoverRuns.AutoInheritsReverse`).
- `do_payload_place` does not clear the place timer of an earlier command; a vehicle reading zero throttle may then
  release without the half-second wait (`PayloadPlace.SafeExactlyWhenTimerClear`).
- At a loop rate of one check a second the parachute would never be released (`ParachuteCheck.RateOneNeverReleases`). The
  scheduler's constructor limits the rate to 50 to 2000, so only a stored parameter loaded past that limit could give it.
- The reversed yaw error of the tracker exceeds a full turn when the heading difference needs wrapping
  (`TrackerPointing.ReversedErrorTurnsTheOtherWay`). Then, and for an upward error of less than a centidegree, what is
  stored is not the error of the route that was chosen (`TrackerPointing.StoredErrorIsChosenRoute`).

## Model

| member | source | states |
|---|---|---|
| `ArduMath.WrapKeepsHeading` | libraries/AP_Math/AP_Math.cpp:93-130 | the wrapped angle is in -180 to 180 degrees and differs by whole turns from the angle |
| `ThrustCurve.RootArgumentNonNegative` | APMrover2/AP_MotorsUGV.cpp:515 | the square root is never taken of a negative number |
| `ThrustCurve.CurveInvertsThrust` | APMrover2/AP_MotorsUGV.cpp:504-516 | the output drives the motor to exactly the requested thrust: 100 times the signed quadratic thrust at the output is the clamped request |
| `ThrustCurve.ThrustInvertsCurve` | APMrover2/AP_MotorsUGV.cpp:504-516 | asking for the thrust of a drive level gives back that level |
| `ThrustCurve.OneLevelPerThrust` | APMrover2/AP_MotorsUGV.cpp:504-516 | no two drive levels give the same thrust, so the output above is the only one |
| `ThrustCurve.CurveIsOdd` | APMrover2/AP_MotorsUGV.cpp:513-515 | forward and reverse are mirror images |
| `ThrustCurve.CurveStrictlyIncreasing` | APMrover2/AP_MotorsUGV.cpp:504-516 | more throttle gives strictly more output, for scaled and unscaled exponents |
| `ThrustCurve.CurveKeepsDirection` | APMrover2/AP_MotorsUGV.cpp:504-516 | the output stays within full scale and has the sign of the request, zero included |
| `ThrustCurve.FullScaleIsExact` | APMrover2/AP_MotorsUGV.cpp:504-516 | the output is at full scale exactly when the request is |
| `ThrustCurve.UnscaledIsRequest` | APMrover2/AP_MotorsUGV.cpp:507-510 | an exponent of zero or out of range leaves the request as it is |
| `ThrustCurve.RequestedThrustIsProduced` | APMrover2/AP_MotorsUGV.cpp:504-516 | for every exponent the motor delivers the percentage of thrust that was requested |
| `SkidMixer.BusierMotorCarriesDemand` | APMrover2/AP_MotorsUGV.cpp:398-418 | the larger motor magnitude is the combined demand capped at one |
| `SkidMixer.MixRecoversDemand` | APMrover2/AP_MotorsUGV.cpp:413-418 | mean and half difference of the motors are the scaled throttle and steering |
| `SkidMixer.MixKeepsRatio` | APMrover2/AP_MotorsUGV.cpp:406-411 | saturation scales throttle and steering by the same factor |
| `SkidMixer.MixTurnsAsSteered` | APMrover2/AP_MotorsUGV.cpp:413-418 | left minus right has the sign of steering times direction of travel |
| `SkidMixer.RelayPairRecoversThrottle` | APMrover2/AP_MotorsUGV.cpp:436-460 | relay level and written output determine the signed throttle exactly outside one stated sliver, for either reversal |
| `SkidMixer.RelaySliverLosesSign` | APMrover2/AP_MotorsUGV.cpp:443-459 | a throttle in that sliver reads back with the opposite sign |
| `Motors.Request` | APMrover2/AP_MotorsUGV.cpp:152-167 | a request lies within THR_MAX and outside the THR_MIN band, and is the demand when that already does |
| `Motors.SanitisedNearest` | APMrover2/AP_MotorsUGV.cpp:155-156 | THR_MIN and THR_MAX are moved into 0 to 20 and 30 to 100 and no further than needed |
| `Motors.SteeringIsKept` | APMrover2/AP_MotorsUGV.cpp:146-149 | a steering demand in range is kept and one beyond it moved to that end |
| `Motors.MotorsUGV.SetThrottle` | APMrover2/AP_MotorsUGV.cpp:152-167 | parameters are sanitised and the request stored, nothing else changes |
| `Motors.MotorsUGV.SetSteering` | APMrover2/AP_MotorsUGV.cpp:146-149 | steering is clamped to 4500 either way |
| `Motors.MotorsUGV.Output` | APMrover2/AP_MotorsUGV.cpp:181-205 | limits, slewed throttle and every pin after one output, armed only if soft-armed too |
| `Motors.MotorsUGV.SetLimitsFromInput` | APMrover2/AP_MotorsUGV.cpp:495-502 | the flags before slewing |
| `Motors.MotorsUGV.SlewLimitThrottle` | APMrover2/AP_MotorsUGV.cpp:478-492 | the output is the request pulled to within a step of the previous output, and a flag is added on the side it fell short |
| `Motors.MotorsUGV.OutputRegular` | APMrover2/AP_MotorsUGV.cpp:360-377 | steering always moves; throttle is driven only when armed |
| `Motors.MotorsUGV.OutputSkidSteering` | APMrover2/AP_MotorsUGV.cpp:380-423 | both skid motors after the mix, or their safe signal when disarmed |
| `Motors.MotorsUGV.OutputThrottle` | APMrover2/AP_MotorsUGV.cpp:426-475 | relay and channel of one motor; a relay motor without a channel is left alone |
| `Motors.ThrottleStaysWithinMax` | APMrover2/AP_MotorsUGV.cpp:152-205 | over every interleaving the request and the last output stay within THR_MAX |
| `Motors.ConsecutiveOutputsWithinStep` | APMrover2/AP_MotorsUGV.cpp:478-492 | with slewing on, outputs of any run differ from the previous one by at most the rate's percentage of the range for the time step, or one percent |
| `Motors.OutputMovesByStep` | APMrover2/AP_MotorsUGV.cpp:478-492 | an output moves toward the request by the whole gap or by that step, whichever is smaller |
| `Motors.LimitFlagsAreExact` | APMrover2/AP_MotorsUGV.cpp:478-502 | after an armed output a throttle flag holds exactly for a request at that end or an output short of it, never both, and a steering flag exactly at that end |
| `Motors.BothLimitsExactly` | APMrover2/AP_MotorsUGV.cpp:478-502 | in any state, both flags hold exactly when the previous output lies beyond THR_MAX by more than a step |
| `Motors.LoweredMaxRaisesBothLimits` | APMrover2/AP_MotorsUGV.cpp:155-156 | lowering THR_MAX while driving faster reaches that state |
| `Motors.SlewConverges` | APMrover2/AP_MotorsUGV.cpp:152-205 | repeating a request approaches it monotonically, never crosses it, and arrives exactly within one iteration per percent |
| `Motors.ObservedCommand` | APMrover2/AP_MotorsUGV.cpp:426-475 | reading the pins of a motor gives back the command's magnitude always, and the command exactly unless a relay lost its sign |
| `Motors.SkidOutputWithinScale` | APMrover2/AP_MotorsUGV.cpp:380-475 | end to end, no motor exceeds full scale and the busier is at full scale exactly when the demand reaches it |
| `Motors.SkidOutputTurnsAsSteered` | APMrover2/AP_MotorsUGV.cpp:380-475 | end to end, the motors' difference has the sign of the steering, mirrored in reverse, unless a relay lost the sign of a command |
| `Motors.MotorsGiveMixedThrust` | APMrover2/AP_MotorsUGV.cpp:360-475 | end to end and for every exponent, each motor delivers its mixed thrust, so their mean and half difference are the mixed throttle and steering, unless a relay lost the sign of a command |
| `Motors.EachMotorHasItsRelay` | APMrover2/AP_MotorsUGV.cpp:443-456 | the left motor's direction is on relay 0 and the right one's on relay 1, as mounted |
| `Motors.RegularMotorGivesThrottle` | APMrover2/AP_MotorsUGV.cpp:360-377 | without skid steering the servo gets the steering and the one motor delivers the throttle |
| `Motors.DisarmedIsNeverDriven` | APMrover2/AP_MotorsUGV.cpp:366-396 | disarmed, every throttle channel gets the configured resting signal, no relay moves and all limits are flagged |
| `PilotInput.ManualUpdate` | APMrover2/mode_manual.cpp:4-15 | throttle, steering and reverse flag follow the decoded sticks; a stick type stores the request of the throttle stick's percentage |
| `PilotInput.SticksAreRequested` | APMrover2/mode.cpp:62-94 | the motors are asked for the throttle stick's percentage and the steering stick's angle, mirrored only by the type that does so in reverse |
| `PilotInput.PaddleMeanIsRequested` | APMrover2/mode.cpp:68-76 | with two paddles they are asked for the paddles' mean |
| `PilotInput.HeldStickIsReached` | APMrover2/AP_MotorsUGV.cpp:152-205 | a throttle stick held in range is reached exactly, within one iteration per percent |
| `PilotInput.SticksSetTheMotors` | APMrover2/mode.cpp:62-94 | unsaturated sticks set the mean and the half difference of the motors |
| `PilotInput.HoldUpdate` | APMrover2/mode_hold.cpp:4-12 | no demand and never reverse |
| `PilotInput.NoDemandSettlesAtMinimum` | APMrover2/mode.cpp:49-54 | without a radio the demand is nothing and the throttle settles at THR_MIN |
| `PilotInput.JudgementsAgree` | APMrover2/mode.cpp:78-93 | for any demand, slew rate and THR_MIN, a condition on the state and demand before an iteration that decides exactly whether pilot decode and mixer agree on the direction of travel |
| `PilotInput.TurnSurvivesTheChain` | APMrover2/mode.cpp:47-95 | sticks to wheels: relays losing no sign, the motors turn the intended way exactly unless a reversing-aware type fails that condition |
| `PilotInput.ClearDemandsAgree` | APMrover2/AP_MotorsUGV.cpp:478-492 | for demands that are forward, or backward by 200 epsilons, only a slew limiter holding the throttle on the other side of the mixer's test makes the judgements differ |
| `PilotInput.SticksAgreeOnTravel` | APMrover2/mode.cpp:88-93 | with stick types the judgements agree exactly unless the slew limiter holds the throttle on the other side of the mixer's test |
| `PilotInput.PaddleMeasuresPulse` | libraries/RC_Channel/RC_Channel.cpp:265-282 | a paddle is the pulse's share of its side's range, mirrored if reversed, full beyond the range and zero without one |
| `PilotInput.PaddlesAreClear` | libraries/RC_Channel/RC_Channel.cpp:265-282 | the mean of two paddles calibrated in 800 to 2200 is forward or at least 200 epsilons backward |
| `PilotInput.PaddlesAgreeOnTravel` | APMrover2/mode.cpp:68-81 | with calibrated paddles the judgements agree under exactly the same condition as with sticks |
| `PilotInput.PaddlesSetTheMotors` | APMrover2/mode.cpp:68-81 | unsaturated paddles set the mean and the difference of the motors |
| `PilotInput.ReversalIsJudgedLate` | APMrover2/AP_MotorsUGV.cpp:478-492 | with a backward demand held from a forward throttle, the judgements differ at exactly the iterations that have not slewed the throttle, in closed form, through zero |
| `PilotInput.StickTurnsTheWrongWay` | APMrover2/mode.cpp:88-93 | at the default slew rate a right turn asked for while pulling the stick back from half throttle drives the motors left |
| `PilotInput.PaddlesTurnTheWrongWay` | APMrover2/mode.cpp:68-81 | so does one asked for with two paddles, given as radio pulses |
| `SpeedShaping.PivotHysteresis` | APMrover2/Steering.cpp:6-31 | pivoting after any error sequence exactly when some error passed the upper threshold and none since fell below the lower |
| `SpeedShaping.SpeedController.UsePivotSteering` | APMrover2/Steering.cpp:6-31 | one step of the hysteresis |
| `SpeedShaping.SpeedController.CalcReducedSpeed` | APMrover2/mode.cpp:255-291 | the shaped speed and the pivot state it leaves |
| `SpeedShaping.ReducedSpeedIsSafe` | APMrover2/mode.cpp:255-291 | never faster or reversed, zero while pivoting, and the maximum deceleration over the distance left brings it to the final speed |
| `SpeedShaping.BrakingIsExact` | APMrover2/mode.cpp:284-287 | without a turn the speed is the desired one if that can be braked in time, and otherwise just what can |
| `SpeedShaping.TurnReductionIsProportional` | APMrover2/mode.cpp:262-281 | a turn takes off the product of the shares of heading error, lateral acceleration and what the gain leaves |
| `SpeedShaping.StraightKeepsSpeed` | APMrover2/mode.cpp:262-281 | no heading error or no lateral acceleration takes nothing off |
| `SpeedShaping.NegativeGainReverses` | APMrover2/mode.cpp:265-281 | a full turn leaves the gain's percentage, so exactly the negative gains reverse the vehicle |
| `SpeedShaping.SpeedMaxProjectsCruise` | APMrover2/mode.cpp:200-214 | full throttle is projected to reach the cruise speed's multiple, capped at 30 m/s, and the cruise speed itself where the cruise throttle is out of range |
| `SpeedShaping.NudgeStaysBelowMaximum` | APMrover2/mode.cpp:220-250 | a nudge adds, in the direction of travel, the share of the headroom that the stick is pushed into its last half, and nothing otherwise |
| `RoverModes.Rover.SetReverse` | APMrover2/system.cpp:206-212 | the reverse flag takes the value |
| `RoverModes.Rover.SetMode` | APMrover2/system.cpp:214-250 | the mode changes exactly when entry is granted; a refusal changes nothing |
| `RoverModes.Rover.Enter` | APMrover2/mode.cpp:20-45 | estimate checks and the entry conditions and effects of every mode |
| `RoverModes.Rover.SetReversed` | APMrover2/mode_auto.cpp:147-153 | the vehicle's flag follows only when Auto's own flag changes |
| `RoverModes.Rover.RunCallbacks` | APMrover2/commands_logic.cpp:16-144 | the effect of a sequence of mission commands, up to completion |
| `RoverModes.Rover.StartRtl` | APMrover2/mode_auto.cpp:139-144 | the RTL submode starts only if RTL could be entered |
| `RoverModes.Rover.SetHome` | APMrover2/commands.cpp:33-89 | home is set, or locked, exactly for a valid location with an origin |
| `RoverModes.Rover.UpdateHomeFromEkf` | APMrover2/commands.cpp:4-13 | only an unset home is set |
| `RoverModes.Rover.FailsafeTrigger` | APMrover2/failsafe.cpp:46-97 | the whole state after one call: bits, timer, latch, and mode after the action |
| `RoverModes.Rover.TakeAction` | APMrover2/failsafe.cpp:72-95 | the first mode of the action's list that will have the vehicle |
| `RoverModes.Rover.ControlFailsafe` | APMrover2/radio.cpp:120-137 | which failsafe the radio raises or clears, and when |
| `RoverModes.Rover.Update` | APMrover2/mode_hold.cpp:4-12 | which modes may write the reverse flag |
| `RoverModes.Rover.UpdateMission` | APMrover2/commands_logic.cpp:4-11 | the mission runs only in Auto with home set |
| `RoverRuns.SetModeKeepsSound` | APMrover2/system.cpp:214-250 | a mode request keeps the invariant and ends in the requested mode exactly when granted |
| `RoverRuns.RequestIsGrantedExactly` | APMrover2/mode.cpp:20-45 | a request is granted exactly when the mode's estimates, home, mission or path are there, an armed vehicle needing its estimates; a refusal changes nothing |
| `RoverRuns.PositionModesNeedEstimate` | APMrover2/mode.cpp:22-42 | over any run an armed vehicle enters Auto, RTL, SmartRTL or Guided only with a position estimate and an origin |
| `RoverRuns.SetHomeRaisesLevel` | APMrover2/commands.cpp:33-89 | setting home raises it to the level asked for and never lowers it |
| `RoverRuns.MissionEffects` | APMrover2/commands_logic.cpp:16-144 | a mission sets an unset home if a command that runs says so, and ends in Hold exactly if it completes |
| `RoverRuns.LastStartDecides` | APMrover2/mode_auto.cpp:88-144 | the submode is that of the last navigation command to start one |
| `RoverRuns.AutoStartsWithWaypoint` | APMrover2/mode_auto.cpp:10-33 | entering Auto heads for a waypoint unless the first commands start something else |
| `RoverRuns.MissionNeedsAutoAndHome` | APMrover2/commands_logic.cpp:4-11 | outside Auto, without a home or with only its home entry the mission does nothing |
| `RoverRuns.FailsafeActionEndsSafely` | APMrover2/failsafe.cpp:65-96 | a firing with action 1 to 4 ends in the first grantable of RTL, SmartRTL and Hold, and latches all bits |
| `RoverRuns.EveryStateIsSound` | APMrover2/mode_rtl.cpp:4-21 | in every reachable state RTL has a home, Guided, RTL and SmartRTL are not in reverse, latched failsafes are present, and home never becomes less set |
| `RoverRuns.LastWriteDecides` | APMrover2/commands_logic.cpp:16-144 | commands run in order leave the reverse flag as the last of them to write it did, or untouched |
| `RoverRuns.AutoInheritsReverse` | APMrover2/mode_auto.cpp:27-32 | after entering Auto the reverse flag is what the mission's last writing command wrote, or else the old flag unless Auto had set it |
| `RoverRuns.AutoRemembersCommand` | APMrover2/commands_logic.cpp:420-424 | Auto's own flag is the last one a command set |
| `RoverRuns.ReverseHasCause` | APMrover2/system.cpp:206-212 | over any run the vehicle starts to reverse only by a manual mode's update or a mission command to reverse |
| `RoverRuns.UpdateWritesReverse` | APMrover2/mode_hold.cpp:4-12 | updating Hold clears the reverse flag, updating a manual mode writes it, other updates leave it |
| `RoverRuns.BitsChangeOnlyOnTrigger` | APMrover2/failsafe.cpp:46-71 | only trigger calls touch the failsafe: they add or remove their bit, start the timer on the first, drop cleared bits from the latch, and a firing latches all present |
| `RoverRuns.LastReportDecides` | APMrover2/failsafe.cpp:49-53 | over every run a failsafe is present exactly as last reported |
| `RoverRuns.FailsafeHasBeginning` | APMrover2/failsafe.cpp:54-57 | a present failsafe began at a call that started the timer and has lasted since |
| `RoverRuns.FiringIsExact` | APMrover2/failsafe.cpp:63-70 | a trigger call fires exactly outside RTL and Hold, with something present and nothing latched, when the clock shows more than FS_TIMEOUT since the report that began it |
| `RoverRuns.FiringIsJustified` | APMrover2/failsafe.cpp:65-70 | an action fires only for a failsafe present without a break for more than FS_TIMEOUT of true time, across clock wraps |
| `RoverRuns.LatchIsExact` | APMrover2/failsafe.cpp:63-70 | a failsafe is latched exactly if an action fired with it present and it has stayed present |
| `RoverRuns.LatchHolds` | APMrover2/failsafe.cpp:63-70 | while a latched failsafe stays present nothing fires |
| `RoverRuns.NoRefireWhileLatched` | APMrover2/failsafe.cpp:63-70 | between two firings every latched failsafe was cleared at least once |
| `RoverRuns.HealthyRadioNeverFails` | APMrover2/radio.cpp:130-136 | a link heard within two seconds with a good pulse never reads as failed |
| `RoverRuns.RadioSetsItsFailsafe` | APMrover2/radio.cpp:120-137 | each radio input sets or clears its own failsafe: a low pulse or two silent seconds the throttle one, a second and a half without override the RC one |
| `SmartRtl.ModeSmartRtl.Enter` | APMrover2/mode_smart_rtl.cpp:4-31 | entry needs an origin and an active library |
| `SmartRtl.ModeSmartRtl.Update` | APMrover2/mode_smart_rtl.cpp:33-87 | one update of the stage, the target and the path |
| `SmartRtl.ModeSmartRtl.SavePosition` | APMrover2/mode_smart_rtl.cpp:90-94 | no point is saved while in the mode |
| `SmartRtl.PathIsFollowedBackwards` | APMrover2/mode_smart_rtl.cpp:46-72 | at any point of any run the path left and the points popped make up the original path, last in first out |
| `SmartRtl.NextPopNeedsArrival` | APMrover2/mode_smart_rtl.cpp:48-68 | the next point is taken only after the previous one was reached or passed |
| `SmartRtl.StopsOnlyWhenPathEmpty` | APMrover2/mode_smart_rtl.cpp:50-55 | the mode stops at home only with the whole path used up, or a library that refuses to pop |
| `SmartRtl.LegsAreCounted` | APMrover2/mode_smart_rtl.cpp:46-72 | over any interleaving with driving and saves, points popped are legs completed plus the one being driven |
| `SmartRtl.HomeExactlyWhenEveryLegDone` | APMrover2/mode_smart_rtl.cpp:46-72 | with a library that never refuses, the vehicle has stopped at home exactly when some update found a leg completed for every saved point |
| `SmartRtl.FollowsTheCleanedPath` | APMrover2/mode_smart_rtl.cpp:35-44 | nothing happens until the cleanup is done, and then its path is followed from its newest point |
| `SmartRtl.SavesOnlyOutside` | APMrover2/mode_smart_rtl.cpp:90-94 | outside the mode every accepted point is added to the path, inside none is |
| `SmartRtl.FailsOnlyWithoutOrigin` | APMrover2/mode_smart_rtl.cpp:57-60 | following fails exactly at a pop without an origin |
| `SmartRtl.ReachedOnlyWhenStopped` | APMrover2/mode_smart_rtl.cpp:74-84 | the destination is reported reached exactly from the first update after stopping or failing |
| `EkfCheck.EkfChecker.Check` | ArduCopter/ekf_check.cpp:29-87 | counter, flag, failsafe and notification after one check, and when a response is made |
| `EkfCheck.EkfChecker.FailsafeEvent` | ArduCopter/ekf_check.cpp:152-180 | the response to a new EKF failsafe; a landing that was entered gives up the GPS |
| `EkfCheck.EkfChecker.FailsafeOffEvent` | ArduCopter/ekf_check.cpp:183-193 | the failsafe is clear afterwards |
| `EkfCheck.FailsafeFollowsFlag` | ArduCopter/ekf_check.cpp:29-87 | in every reachable state failsafe and notification equal the flag, and the flag bounds the counter |
| `EkfCheck.RunDependsOnVerdicts` | ArduCopter/ekf_check.cpp:31-44 | only verdicts since the last restart matter |
| `EkfCheck.CounterIsLargestRecentScore` | ArduCopter/ekf_check.cpp:46-66 | until raised the counter is the largest bad-minus-good score of any recent window, and the flag rises when it reaches ten |
| `EkfCheck.RaisedIffTenNetBad` | ArduCopter/ekf_check.cpp:46-66 | the flag has been raised exactly when some window held ten more bad than good checks |
| `EkfCheck.ClearsAtTenthGoodCheck` | ArduCopter/ekf_check.cpp:67-81 | the flag falls at exactly the tenth good check whatever bad ones intervene |
| `EkfCheck.RespondsWhenRaised` | ArduCopter/ekf_check.cpp:152-180 | there is a response exactly at the bad check that raises the flag: AltHold if chosen and possible with a radio, else a landing that gives up the GPS |
| `ParachuteCheck.ParachuteChecker.Check` | ArduCopter/crash_check.cpp:63-133 | counter, start altitude and release of one call |
| `ParachuteCheck.CounterCountsEpisode` | ArduCopter/crash_check.cpp:94-120 | the counter stays below the loop rate and is bad minus good checks since it last left zero |
| `ParachuteCheck.ReleaseNeedsSustainedFall` | ArduCopter/crash_check.cpp:94-132 | a release needs a second of net lost control in one episode begun high enough, below its starting barometer altitude throughout |
| `ParachuteCheck.ReleaseNeedsBadSample` | ArduCopter/crash_check.cpp:66-106 | a release comes only at an enabled check of an armed vehicle in the air, not in Acro or Flip, more than 30 degrees off |
| `ParachuteCheck.GroundEndsEpisode` | ArduCopter/crash_check.cpp:66-91 | a check that finds no vehicle in the air ends the episode, a check of a disabled parachute changes nothing |
| `ParachuteCheck.EpisodeBeginsExactly` | ArduCopter/crash_check.cpp:93-116 | an episode begins exactly at a bad check at or above the minimum altitude |
| `ParachuteCheck.SustainedFallReleases` | ArduCopter/crash_check.cpp:108-132 | and the check that completes such a second releases |
| `ParachuteCheck.RateOneNeverReleases` | ArduCopter/crash_check.cpp:108-125 | at one check a second there is never a release |
| `PayloadPlace.PayloadPlacer.DoPayloadPlace` | ArduCopter/commands_logic.cpp:412-429 | only stage and descent limit are set |
| `PayloadPlace.PayloadPlacer.VerifyPayloadPlace` | ArduCopter/commands_logic.cpp:753-902 | state and reply of one call through all fall-throughs |
| `PayloadPlace.PayloadPlacer.ReleaseAndAscend` | ArduCopter/commands_logic.cpp:853-894 | the same for the stages from the release on |
| `PayloadPlace.StageNeverGoesBack` | ArduCopter/commands_logic.cpp:764-902 | stages only advance |
| `PayloadPlace.ReleasesAtMostOnce` | ArduCopter/commands_logic.cpp:853-866 | the gripper is told to release at most once in a run |
| `PayloadPlace.CompletionHasReason` | ArduCopter/commands_logic.cpp:822-902 | completion follows a gripper told to release that reported released or vanished, a missing gripper, or a descent that went too far |
| `PayloadPlace.LandingReleasesAtOnce` | ArduCopter/commands_logic.cpp:764-783 | on landing before the release the gripper, if there is one, is told at once |
| `PayloadPlace.WaitingStagesEnd` | ArduCopter/commands_logic.cpp:786-805 | the flight ends on arrival and the hover after 2000 ms |
| `PayloadPlace.FinalStagesEnd` | ArduCopter/commands_logic.cpp:867-902 | the wait ends when the gripper has released or is gone, and the command completes back at the waypoint |
| `PayloadPlace.ReleaseIsSafe` | ArduCopter/commands_logic.cpp:764-857 | a release comes on landing, or after 2000 ms of hover and then 500 ms in which every check saw at most 70% of the throttle that ended the hover or 90% of the one that calibrated the descent |
| `PayloadPlace.CalibratorIsFirst` | ArduCopter/commands_logic.cpp:829-833 | the descent is calibrated by the first check with a throttle more than 2000 ms after it began |
| `PayloadPlace.SettledReleases` | ArduCopter/commands_logic.cpp:834-857 | conversely such 500 ms in the descent do release |
| `PayloadPlace.DescentLimitIsExact` | ArduCopter/commands_logic.cpp:820-827 | a descent is given up exactly at a check in the air past the limit, if one is set |
| `PayloadPlace.CommandLimitsDescent` | ArduCopter/commands_logic.cpp:412-429 | the limit is the command's parameter, and zero is none |
| `PayloadPlace.SafeExactlyWhenTimerClear` | ArduCopter/commands_logic.cpp:412-429 | a new command is safe on every run exactly when the place timer starts clear |
| `PayloadPlace.StaleTimerReleasesEarly` | ArduCopter/commands_logic.cpp:835-857 | every stale timer value has a run that releases without the wait |
| `PilotThrottle.ThrottleInRangeAndMonotone` | ArduCopter/Attitude.cpp:146-178 | the output is in 0 to 1 and never falls as the stick rises |
| `PilotThrottle.MonotoneExactlyInClampRange` | ArduCopter/Attitude.cpp:174-176 | the cubic is monotone exactly for exponents within the clamp |
| `PilotThrottle.StickEnds` | ArduCopter/Attitude.cpp:159-176 | the ends of the stick are the ends of the curve, the upper one exactly when mid stick is below the top |
| `PilotThrottle.StickIsLinear` | ArduCopter/Attitude.cpp:152-172 | the stick is linear on either side of the mid position, 500 unless one is set, and held within 0 to 1000 |
| `PilotThrottle.LowerHalfStaysLow` | ArduCopter/Attitude.cpp:156-176 | up to mid stick the throttle stays at or below 0.6875, for every hover throttle, and so does full stick when mid stick is at or past the top |
| `PilotThrottle.MidStickGivesMiddle` | ArduCopter/Attitude.cpp:142-178 | mid stick gives the middle throttle, or the hover throttle in its place, exactly when that is in 0.125 to 0.6875 |
| `SurfaceTracking.SurfaceTracker.GetClimbRate` | ArduCopter/Attitude.cpp:231-288 | target, glitch count and rate of one call |
| `SurfaceTracking.CountIsRunInThrees` | ArduCopter/Attitude.cpp:260-272 | the signed count is the current run of same-direction glitches counted in threes |
| `SurfaceTracking.ReadingsAreJudgedByTarget` | ArduCopter/Attitude.cpp:239-267 | a reading is a glitch up or down from two metres off the target last left, reset after a second of silence and moved by the pilot unless the motors have reached their limit that way |
| `SurfaceTracking.EngagingDoesNotMove` | ArduCopter/Attitude.cpp:241-244 | engaging without a pilot demand commands no climb rate |
| `SurfaceTracking.SnapsOnEveryThird` | ArduCopter/Attitude.cpp:268-272 | the target snaps to the reading exactly on a third glitch in a row and otherwise ignores readings |
| `SurfaceTracking.RateStaysNearPilot` | ArduCopter/Attitude.cpp:273-284 | the pilot's rate while glitching; otherwise corrected by error times gain, up to 150 cm/s, toward the target |
| `TrackerPointing.EarthBodyEarth` | AntennaTracker/control_auto.cpp:66-83 | earth to body to earth is the identity when cos(pitch) is not zero |
| `TrackerPointing.BodyEarthBody` | AntennaTracker/control_auto.cpp:66-83 | body to earth to body is the identity when cos(pitch) is not zero |
| `TrackerPointing.VerticalIsRefused` | AntennaTracker/control_auto.cpp:75-78 | near the vertical the conversion is refused |
| `TrackerPointing.RollTurnsTheError` | AntennaTracker/control_auto.cpp:66-71 | level, yaw is foreshortened by the pitch; on its right side, yaw is seen as pitch and pitch as opposite yaw |
| `TrackerPointing.RollKeepsTheSize` | AntennaTracker/control_auto.cpp:66-71 | no roll changes the size of the error |
| `TrackerPointing.LimitsAreServoEnds` | AntennaTracker/control_auto.cpp:88-100 | the earth-frame limits are the servos' own ends |
| `TrackerPointing.ChoosesSmallerShortfall` | AntennaTracker/control_auto.cpp:106-132 | with both routes past their limits the chosen one has the smaller shortfall; the long way only for a strict gain |
| `TrackerPointing.ErrorKeepsTarget` | AntennaTracker/control_auto.cpp:48-56 | shortest and reversed error both end on the target heading |
| `TrackerPointing.ReversedErrorTurnsTheOtherWay` | AntennaTracker/control_auto.cpp:48-56 | a reversed error has the opposite sign, and stays within one turn exactly when no wrapping was needed |
| `TrackerPointing.StoredErrorIsChosenRoute` | AntennaTracker/control_auto.cpp:48-132 | the stored error is that of the chosen route exactly when the short way was chosen, or no wrapping was needed and the error is not a fraction upward |
| `TrackerPointing.Tracker.CalcAngleError` | AntennaTracker/control_auto.cpp:37-64 | the stored body-frame errors |
| `TrackerPointing.Tracker.UpdatePointing` | AntennaTracker/AntennaTracker.cpp:101-112 | the stored errors convert back to the earth-frame errors of the chosen route |
| `TrackerScan.Scanner.UpdateScan` | AntennaTracker/control_scan.cpp:11-38 | both axes after one update |
| `TrackerScan.SweepStaysInRange` | AntennaTracker/control_scan.cpp:13-35 | from any start one update lands in range, and then each moves one step on, or by less onto an end |
| `TrackerScan.ManualAxisIsLeftAlone` | AntennaTracker/control_scan.cpp:13-36 | an axis under manual control is left alone and the other scans as before |
| `TrackerScan.BothEndsAreReached` | AntennaTracker/control_scan.cpp:13-35 | from any state both ends are hit exactly within two crossings |
| `TrackerScan.ScanCoversForEver` | AntennaTracker/control_scan.cpp:11-38 | every window of two crossings contains updates exactly at each end of each axis |

## Left out

- SettledReleases: does not cover a stretch of low throttle that begins in the very millisecond the 32-bit clock reads zero, because the machine takes a place timer of zero for none and starts it at the next call, nor a descent of more than 2^32 ms.
- Float rounding, NaN and infinities (except the division by a zero throttle level in payload place, which follows IEEE): values are reals.
- The 16-bit truncation of servo values inside SRV_Channels, and PWM generation: the value handed to the servo library is the output.
- AHRS, EKF variances, AP_Mission storage, AP_SmartRTL's pruning and its re-saving of home, gripper and parachute internals: their answers are inputs.
- Mission commands that run outside Auto: callbacks are taken to come only from the running mission or from entering Auto.
- Failsafe bits other than the three defined ones: a bit mask is a set of the three events, and each call names one of them, as every caller does.
- Two readings of the clock within one call: one reading serves the whole call.
- Navigation geometry (bearings, distances, `set_desired_location`), and the PID, Acro and Steering control laws: only their writes to the reverse flag are kept.
- Guided targets and their three-second timeout, the auto trigger pin and kickstart, and the moving of an unlocked home by `update_home`: they would only add easy members.
- Logging, GCS text and warnings, arming checks, fence, crash check, camera, mount and sprayer commands, compass-motor calibration.
- The mode-change reason and the notification of mode changes.
