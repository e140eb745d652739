# Motor drive firmware: verified model

A Dafny model of the parts of a motor drive whose failure is costly, with the properties they are there for.

* **Firmware update and image swap** (`Bytes`, `Multiples`, `BootStatus`, `ImageSwap`, `BootRuns`, `BootCuts`,
  `Bootloader`, `DfuUpdate`, `UpdateTask`, `UpdateDelivery`). Chunks of an image arrive over CAN in any order and land in flash; the bootloader
  exchanges the two images through one spare page, logging every step, and undoes the exchange when the watchdog ends
  the trial of the new image.
* **The record page** (`RecordLog`, `RecordPage`): an append-only log of checked records, erased when full.
* **Current-loop tuning** (`Reals`, `Complexes`, `Jury`, `PiTuning`, `CurrentTuning`, `PiController`): discrete pole
  placement, the Jury test, the robustness grid and the controller the gains go to.
* **Field-oriented control** (`Transforms`, `Modulation`, `Hfi`, `FieldWeakening`, `Foc`): the current target, the
  voltage limit with room for the injection, space-vector modulation.
* **Hall feedback** (`Angles`, `Hall`): the sorted calibration and the angle and speed inside a sector.
* **Supervision** (`Debounce`, `Faults`, `SafeStrategy`, `Modes`, `FocStep`, `PolarityTest`): operating modes, fault
  trace, safe states, one step of the current loop, the polarity test.
* **Commissioning** (`Identification`, `MotorEstimation`, `MotorRecovery`, `Calibration`): least squares, the offline
  motor estimator, the results it reaches, and the calibration sequence that drives it.

Where the original changes an object in place the model is a class whose methods are proved equal to a function of the
old state; the properties are lemmas about these functions. Numbers are exact reals. Square roots are exact, sine and
cosine are any pair on the unit circle, exponentials are positive, increasing and 1 at 0, the square root of three is
any positive number whose square is 3. Checksums, serializers and the operations of the Hall calibrator are parameters.
A flash operation either completes or is the last one before a reset; erases and 8-byte writes are atomic, and a reset
inside a page copy leaves the destination page arbitrary.

What the proofs found about the code:

* The step log must hold two words a page, which the layout constants do not check: `BootCuts.LogCapacityIff`. The
  layout in use, 236K of firmware in 2K pages, meets the condition: 118 pages need 236 of the 254 words of the log.
* A reset inside the status write that ends a swap, after the erase of the page, ends the trial of the new image before it
  starts: the image keeps running and no watchdog reset ever brings the old one back. `BootCuts.TrialRecordedIff` says
  exactly when the trial is on record, `BootCuts.StatusCutEndsTrial` gives the failing input.
* A revert that is cut between the erase of its first firmware page and the write of its last needs every later boot to
  see the watchdog flag: `BootCuts.UnflaggedBootDuringRevert` says exactly which cuts make a boot without it run a mixed
  image.
* A power loss between erasing a full record page and writing it loses the stored value: `RecordLog.SurvivesIff`.
* The 16-bit chunk counter is safe exactly below a capacity of 6 * 65536 bytes: `DfuUpdate.CounterFits` and
  `DfuUpdate.CounterOverflowsFrom`.
* With the largest timeout the saturating counter of the polarity test never expires:
  `PolarityTests.VerdictIsCertainIff`.
* The forward Clarke constant makes the alpha axis longer by one part in two million: `Transforms.ClarkeRoundTrip`.

`dafny verify dfyconfig.toml` checks the whole project.

## Model

| member | source | states |
|---|---|---|
| BootStatus.FromBytes | firmware-core/src/boot.rs:46-73 | the scan for a programmed byte, the checksum and the unknown-state fallback give the decoded status of any 16 bytes |
| BootStatus.StatusRoundTrip | firmware-core/src/boot.rs:46-83 | a written status reads back as itself, whatever the checksum function |
| BootStatus.StatusLayout | firmware-core/src/boot.rs:9-83 | the sixteen bytes of a record: the number of the state, the length and the checksum of the image, and the checksum of these |
| BootStatus.DecodedReencodesIff | firmware-core/src/boot.rs:19-29 | bytes that decode re-encode to themselves exactly when their raw state is one the enum defines |
| BootStatus.TornStatusDecodes | firmware-core/src/boot.rs:75-83 | a reset between the two words of a status write leaves a corrupt status or the state being written, never another one and never an empty page |
| ImageSwap.ScratchIsFree | firmware-core/src/boot.rs:131-141 | the page a step saves to holds no page still to be loaded and no page already saved, in both modes |
| ImageSwap.StepLosesNothing | firmware-core/src/boot.rs:129-145 | whatever ends up in the destination of the next step, nothing still needed is lost, so every step can be repeated |
| ImageSwap.StepCompletes | firmware-core/src/boot.rs:129-145 | copying the source page completes the step |
| ImageSwap.StepAdvances | firmware-core/src/boot.rs:129-145 | an uninterrupted step moves the exchange and its log on by one |
| ImageSwap.StepCutShort | firmware-core/src/boot.rs:129-145 | an interrupted step moves neither on |
| ImageSwap.StepsKeepExchange | firmware-core/src/boot.rs:127-146 | wherever a reset strikes, the log holds a prefix of the steps and the exchange invariant holds for exactly that prefix |
| ImageSwap.StepsFinish | firmware-core/src/boot.rs:127-146 | three flash operations a step finish the swap |
| ImageSwap.StepsProgramErasedWords | bootloader/src/loader.rs:68-72 | every log word is erased when it is programmed |
| ImageSwap.SwapKeepsExchange | firmware-core/src/boot.rs:116-149 | a swap resumed from any earlier interruption keeps the exchange invariant, and is complete when it returns |
| ImageSwap.FinishedExchange | firmware-core/src/boot.rs:127-146 | a finished exchange holds the incoming image, whole, in the firmware region |
| ImageSwap.NormalEndsWhereRevertStarts | firmware-core/src/boot.rs:132-141 | the pages a normal swap saves into are those a revert loads from |
| BootRuns.WriteStatusKeepsGood | bootloader/src/loader.rs:35-39 | a reset at any step of a status write leaves a device the next boot handles |
| BootRuns.BootIsSafe | bootloader/src/main.rs:27-55 | whatever the status page decodes to and wherever a reset strikes, the device stays recoverable, and a jump finds one whole image |
| BootRuns.SwapCompletes | bootloader/src/main.rs:32-36 | while the mark of an update is on record, whatever resets its swap has had, an uninterrupted boot ends with the new image whole, the old one where a revert finds it and the trial on record |
| BootRuns.RevertCompletes | bootloader/src/main.rs:37-44 | a watchdog reset during the trial restores the old image exactly |
| BootRuns.ConfirmIsSafe | firmware/src/bsp.rs:750-762 | confirming a boot, interrupted or not, keeps the device safe |
| BootRuns.MarkIsSafe | firmware/src/bsp.rs:727-746 | marking an update, interrupted or not, keeps the device safe |
| BootRuns.RunsAreSafe | bootloader/src/main.rs:27-55 | over every run of boots, resets, confirmations and updates, firmware only ever runs from one whole image |
| BootRuns.FactoryIsSafe | firmware-core/src/boot.rs:47-57 | a board as first flashed is a safe start |
| BootCuts.StepsCut | firmware-core/src/boot.rs:127-146 | a swap cut at any operation has copied exactly the steps before, and left the pages no step has reached as they were |
| BootCuts.CutIsWhole | firmware-core/src/boot.rs:127-146 | a cut leaves the firmware region one whole image if and only if it comes before the first firmware page is erased or after the last one is written |
| BootCuts.UnflaggedBootDuringRevert | bootloader/src/main.rs:37-44 | a revert cut after any number c of operations and booted without the watchdog flag runs a whole image if and only if c <= 3 or c >= 6N - 1, for images that differ at both ends |
| BootCuts.TrialRecordedIff | bootloader/src/main.rs:32-36 | a marked update cut anywhere and booted again has its trial on record if and only if the cut was not inside the status write, or the torn status passes its checksum and the second boot is not the watchdog's |
| BootCuts.StatusCutEndsTrial | bootloader/src/loader.rs:35-39 | the failing input: a cut inside the status write that leaves no valid status keeps the new image running through every later boot, with no trial and no revert |
| BootCuts.SettledForever | bootloader/src/main.rs:27-55 | a device whose status asks for no swap is never swapped by any series of boots, cut or not, with the watchdog flag or without |
| BootCuts.ConfirmConfirms | firmware/src/bsp.rs:750-762 | a confirmation leaves the started firmware serving, its pages untouched, erases the record of a rejection, a trial or a timeout and no other, and cut before the erase changes nothing |
| BootCuts.ConfirmedForever | firmware/src/bsp.rs:750-762 | whatever boots follow, cut or not, with the watchdog flag or without, a confirmed firmware is the one that runs |
| BootCuts.PowerCycleResumes | bootloader/src/main.rs:27-55 | loss of power touches nothing, and without a swap on record the next boot starts the same firmware |
| BootCuts.ShortLogLosesTheSwap | firmware-core/src/boot.rs:122-127 | with fewer than two log words a page, a reset after the last word makes the next boot record a trial and run a mixed image |
| BootCuts.LogCapacityIff | firmware-core/src/boot.rs:122-127 | the boot after every cut of a swap runs a whole image if and only if the log holds two words a page or is empty |
| Bootloaders.RingIsMod | firmware-core/src/boot.rs:107-113 | stepping round the ring of pages is the page index modulo N + 1 |
| Bootloaders.WrapIsRing | firmware-core/src/boot.rs:107-113 | wrapping a byte offset is stepping round the ring of N + 1 pages |
| Bootloaders.SumsFitIff | firmware-core/src/boot.rs:131-141 | the 32-bit offset sums never overflow, if and only if the largest of them fits |
| Bootloaders.Bootloader.CopyPage | bootloader/src/loader.rs:51-65 | erase, read and write a page; a reset in between leaves the destination torn and nothing else changed |
| Bootloaders.Bootloader.FirmwareToDfu | bootloader/src/loader.rs:51-57 | the firmware page at a byte offset is saved to the DFU page at another |
| Bootloaders.Bootloader.DfuToFirmware | bootloader/src/loader.rs:59-65 | and back |
| Bootloaders.Bootloader.LogStep | bootloader/src/loader.rs:68-72 | the step's word is marked and no other |
| Bootloaders.Bootloader.FindStart | firmware-core/src/boot.rs:122-125 | the first erased log word is where the swap resumes |
| Bootloaders.Bootloader.RunOneStep | firmware-core/src/boot.rs:129-144 | one step on byte offsets is one step on pages, and touches no page outside the two regions |
| Bootloaders.Bootloader.SwapImages | firmware-core/src/boot.rs:116-149 | the loop over byte offsets is the swap on pages |
| Bootloaders.Bootloader.WriteStatus | bootloader/src/loader.rs:35-39 | the status page is erased, log included, then written word by word |
| Bootloaders.Bootloader.Boot | bootloader/src/main.rs:27-55 | the boot in place is the boot of the runs, and changes no page outside the two regions |
| DfuUpdate.ErasePagesClears | firmware/src/bsp.rs:687-696 | the erase loop clears exactly the pages from the first boundary to the one at or after the end |
| DfuUpdate.WriteAppends | firmware/src/bsp.rs:681-700 | a write at the end of a transfer succeeds, erases no page that holds earlier data, programs erased words only and leaves a clean tail |
| DfuUpdate.DataKeepsReceiving | firmware-core/src/app/update.rs:62-87 | a lost, repeated, late or restarting chunk keeps the accepted bytes a prefix of the image, 6 * counter = written + staged |
| DfuUpdate.CounterFits | firmware-core/src/app/update.rs:75 | below a capacity of 6 * 65536 bytes the chunk counter cannot overflow |
| DfuUpdate.CounterOverflowsFrom | firmware-core/src/app/update.rs:75 | from that capacity on it does |
| DfuUpdate.ApplyDelivers | firmware/src/tasks/can_rx.rs:410-432 | an apply leaves the receiver ready for the next transfer, and a successful one leaves the image in flash |
| DfuUpdate.FlushDelivers | firmware-core/src/app/update.rs:102-111 | the padded tail completes the image |
| DfuUpdate.RunsDeliver | firmware/src/tasks/can_rx.rs:377-432 | over every run of messages of one image, a successful apply leaves exactly the image in flash |
| DfuUpdate.InOrderArrives | firmware-core/src/app/update.rs:62-87 | chunks in order from the first are all accepted, from any state of the receiver |
| DfuUpdate.TransferIsAccepted | firmware/src/tasks/can_rx.rs:410-432 | chunks 0 to n - 1 in order, after whatever went before, are accepted for exactly the lengths that end in the last chunk, if the checksum is that of the image, and refused for the named reason otherwise |
| DfuUpdate.ApplyEndsTransfer | firmware-core/src/app/update.rs:89-114 | after an apply, whatever its answer, every later chunk is asked to start over and every apply refused until a new first chunk |
| DfuUpdate.ReplyMeans | firmware/src/tasks/can_rx.rs:383-409 | what each answer tells the sender: out of sequence nothing changes, a stage acknowledged means every chunk up to it is in flash, a fault means the image does not fit |
| UpdateDelivery.UpdateIsDelivered | firmware/src/tasks/can_rx.rs:410-432 | a transfer whose apply succeeds, its mark and one boot, none cut, start exactly the image that was sent, on trial |
| UpdateDelivery.UpdateIsAllOrNothing | firmware/src/tasks/can_rx.rs:410-432 | wherever resets cut the mark and the boots that follow it, over every run until the next mark, what runs is the firmware that received the update or the image that was sent, whole |
| UpdateTask.FirmwareUpdateState.OnData | firmware-core/src/app/update.rs:62-87 | the receiver in place is the receiver of the runs |
| UpdateTask.FirmwareUpdateState.OnApply | firmware-core/src/app/update.rs:89-114 | likewise for the apply, its padding included |
| UpdateTask.Memory.DfuWrite | firmware/src/bsp.rs:681-700 | the loop over pages is the write of the runs |
| UpdateTask.Memory.DfuCrc32 | firmware/src/bsp.rs:703-716 | the checksum read 64 bytes at a time is the checksum of all of them |
| UpdateTask.Memory.DfuMarkWritten | firmware/src/bsp.rs:727-746 | the status page holds the record of the written image, its log erased, and reads back as that record |
| UpdateTask.Memory.ConfirmBoot | firmware/src/bsp.rs:750-762 | the status page is erased for the three states a confirmation ends, and untouched for every other |
| UpdateTask.Task.OnFirmwareUpdateData | firmware/src/tasks/can_rx.rs:377-409 | a data message does to receiver and flash what a run does, and is answered by the acknowledgement, the fault or the silence of ReplyTo |
| UpdateTask.Task.OnFirmwareUpdateApply | firmware/src/tasks/can_rx.rs:410-432 | an apply message does what a run does; success marks the area as freshly written and erases the step log, and nothing else touches the status page |
| RecordLog.RecordReadsBack | firmware-core/src/app/config.rs:11-70 | a slot that starts with a record is intact and decodes to its value |
| RecordLog.IntactIffRecord | firmware-core/src/app/config.rs:38-53 | a slot is intact if and only if it starts with a record: version, length, payload and the checksum of these |
| RecordLog.OneRecord | firmware-core/src/app/config.rs:14-26 | no slot starts with two records |
| RecordLog.RecordInjective | firmware-core/src/app/config.rs:14-26 | equal records carry equal values |
| RecordLog.ScanFinds | firmware-core/src/app/config.rs:89-107 | the scan stops at the first erased slot and returns the last intact one before it |
| RecordLog.LoadMeans | firmware-core/src/app/config.rs:113-122 | a load gives nothing of an unused page, a fault without an intact record, and of the last intact record its value, none for another version, and a fault if the payload does not decode to the last byte |
| RecordLog.StoringAgainWritesNothing | firmware-core/src/app/config.rs:133-136 | storing the current value again writes nothing |
| RecordLog.StoreFailsIff | firmware-core/src/app/config.rs:126-131 | a store fails if and only if the payload does not fit, and then touches nothing |
| RecordLog.OtherVersionLoadsNone | firmware-core/src/app/config.rs:55-70 | a record of another version loads as none |
| RecordLog.AppendSlot | firmware-core/src/app/config.rs:90-107 | a slot written after the used ones becomes the latest if intact and is passed over if torn |
| RecordLog.StoreLoads | firmware-core/src/app/config.rs:126-149 | a load after a completed store returns the stored value, used slots stay first, and the page is erased only when full and changed |
| RecordLog.PowerLossKeepsOldOrNew | firmware-core/src/app/config.rs:137-148 | a power loss while writing a free slot of a page with an intact record leaves the old value or the new one, unless the torn bytes are a whole other record |
| RecordLog.FullPageLosesValue | firmware-core/src/app/config.rs:139-144 | a power loss after the erase of a full page leaves neither |
| RecordLog.SurvivesIff | firmware-core/src/app/config.rs:133-148 | a value survives every power loss of the next store if and only if a slot is free or the store is skipped |
| RecordLog.StoreKeepsPrefix | firmware-core/src/app/config.rs:126-149 | whatever page a store meets, full or without an intact record, and wherever the power fails, the used slots stay a prefix |
| RecordLog.RunsKeepPrefix | firmware-core/src/app/config.rs:126-149 | over every run of stores and power cuts from an erased page the used slots are a prefix |
| RecordLog.RunsLoadStored | firmware-core/src/app/config.rs:113-149 | over every such run, unless a power cut interrupts the replacement of a full page, a load returns the last completed value or one whose store was cut after it |
| RecordLog.StoresFillInTurn | firmware-core/src/app/config.rs:126-149 | value-changing stores fill the slots in turn |
| RecordLog.ErasesPerStore | firmware-core/src/app/config.rs:137-145 | n value-changing stores into a fresh page of S slots erase it exactly (n - 1) / S times |
| RecordPages.EncodeRecord | firmware-core/src/app/config.rs:14-26 | the buffer filled in place is header, payload and checksum, zeros after |
| RecordPages.RecordPage.ScanPage | firmware-core/src/app/config.rs:90-107 | the loop over slots is the scan |
| RecordPages.RecordPage.LoadRecord | firmware-core/src/app/config.rs:113-122 | the load from flash is the load of the lemmas, whose meaning RecordLog.LoadMeans and RecordLog.IntactIffRecord give |
| RecordPages.RecordPage.StoreRecord | firmware-core/src/app/config.rs:126-149 | the store into flash is the store of the lemmas, power cuts included |
| Jury.TestIsMonicConditions | field-oriented/src/control/pi_control.rs:182-190 | the test on the coefficients is a test on the roots' factors |
| Jury.JuryCriterion | field-oriented/src/control/pi_control.rs:182-190 | for a positive leading coefficient and any real factorisation, the test accepts if and only if all three roots lie inside the unit circle |
| PiTuning.PlantCleared | field-oriented/src/control/pi_control.rs:100-108 | the plant expression at a complex point, times its denominator, is its numerator |
| PiTuning.ControllerCleared | field-oriented/src/control/pi_control.rs:111-118 | likewise the controller |
| PiTuning.ClosedLoopCleared | field-oriented/src/control/pi_control.rs:109-112 | where both are defined, the closed loop times its denominators is the characteristic polynomial, and it vanishes if and only if the polynomial does |
| PiTuning.CoefficientsAreCharacteristic | field-oriented/src/control/pi_control.rs:211-215 | the four coefficients of the stability check are those of that polynomial |
| PiTuning.ComplexRootFactors | field-oriented/src/control/pi_control.rs:122-123 | a non-real root brings its conjugate, and the third root is the one of Vieta's formula |
| PiTuning.RealRootFactors | field-oriented/src/control/pi_control.rs:182-190 | a real root divides out of the cubic |
| PiTuning.StableRootsInside | field-oriented/src/control/pi_control.rs:182-190 | acceptance by the test puts every root, real or complex, inside the unit circle |
| CurrentTuning.GainsPlacePole | field-oriented/src/control/pi_control.rs:109-118 | the computed kp and ki make the requested pole a root of the characteristic polynomial |
| CurrentTuning.PlacementFacts | field-oriented/src/control/pi_control.rs:86-99 | a goal that is let through is a pole off the real axis and inside the unit circle |
| CurrentTuning.ResidualIsDelayPole | field-oriented/src/control/pi_control.rs:122-123 | the residual root is the value computed for the delay pole |
| CurrentTuning.DelayPoleInside | field-oriented/src/control/pi_control.rs:124-127 | a delay pole that is let through lies between 0 and 1 |
| CurrentTuning.TunedPolesArePlaced | field-oriented/src/control/pi_control.rs:84-131 | tuned gains give the requested pole, its conjugate and the delay pole as the three roots, all inside the unit circle, and the unperturbed polynomial passes the stability test |
| CurrentTuning.TunedPoleIsRequested | field-oriented/src/control/pi_control.rs:84-131 | the poles placed are those of the damping and the frequency asked for, the winding pole where that is faster, sampled with the period, and the reported bandwidth is the half-power frequency of that system |
| CurrentTuning.TuneAcceptsIff | field-oriented/src/control/pi_control.rs:84-131 | an axis is tuned if and only if some gains, the proportional one positive, place that pole and leave a third root three times as fast |
| CurrentTuning.GainsAreUnique | field-oriented/src/control/pi_control.rs:109-118 | the gains that place a pole are the only ones that do |
| CurrentTuning.FasterGoalFasterPole | field-oriented/src/control/pi_control.rs:86-93 | of two goals the faster never has the slower pole |
| CurrentTuning.BandwidthIsHalfPower | field-oriented/src/control/pi_control.rs:89 | at the computed bandwidth the gain of the second-order system is one over the square root of two |
| CurrentTuning.GridReaches | field-oriented/src/control/pi_control.rs:149-166 | the perturbations tried, and the delay |
| CurrentTuning.TunedFilterCancelsZero | field-oriented/src/control/pi_control.rs:128-130 | the setpoint filter gain lies strictly between 0 and 1 and its pole is the zero of the controller |
| CurrentTuning.PerturbedStabilityCheck | field-oriented/src/control/pi_control.rs:192-224 | the nested loop with its early exit accepts exactly the gains stable at every point of the grid |
| CurrentTuning.ComputeCurrentPiControllerGains | field-oriented/src/control/pi_control.rs:134-180 | gains are returned if and only if both axes can be tuned and are stable on the whole grid, and then they are those gains; otherwise the fault is the first of the five that applies |
| CurrentTuning.StablePolesInside | field-oriented/src/control/pi_control.rs:211-219 | where the test accepts, every closed-loop pole lies inside the unit circle |
| CurrentTuning.GridPolesInside | field-oriented/src/control/pi_control.rs:195-224 | accepted gains are stable for every perturbed resistance and inductance of the grid |
| CurrentTuning.GridIsPositive | field-oriented/src/control/pi_control.rs:159-166 | no perturbed parameter of the grid vanishes |
| PiControllers.PIController.Compute | field-oriented/src/control/pi_control.rs:52-68 | output and state of one step; without gains nothing changes |
| PiControllers.SaturatedIntegralMovesToLimit | field-oriented/src/control/pi_control.rs:59-67 | while the output is cut, the fed-back cut moves the integral towards the limit and not past it |
| PiControllers.StepsAreController | field-oriented/src/control/pi_control.rs:52-68 | uncut steps are the controller kp + T ki z / (z - 1) on the error, the filtered reference less the measurement |
| PiControllers.FilterSettles | field-oriented/src/control/pi_control.rs:52-58 | the setpoint filter leaves the share kr of the distance to a constant reference at each step |
| Transforms.ParkRoundTrip | field-oriented/src/utils/math.rs:44-68 | rotating to the stator frame keeps the magnitude, and rotating back gives the vector again |
| Transforms.ParkRoundTripBack | field-oriented/src/utils/math.rs:44-68 | and the other way round |
| Transforms.InverseClarkParkComposes | field-oriented/src/utils/math.rs:56-76 | the one-step inverse is the two inverses in turn |
| Transforms.ClarkeRoundTrip | field-oriented/src/utils/math.rs:36-42 | phases made from a vector sum to zero and give it back, the alpha axis 1.0000005 times as long |
| Transforms.SectorOrdersPhases | field-oriented/src/utils/math.rs:78-93 | the sector is s if and only if the phase voltages are in the order s stands for; the default arm is never taken |
| Transforms.SpreadWithinBus | field-oriented/src/control/foc.rs:207-208 | a vector no longer than bus / sqrt(3) spreads its phases over no more than the bus |
| Modulation.SaturateMeetsCircle | field-oriented/src/control/foc.rs:169-184 | a voltage in the circle is kept, any other is brought onto the circle, the direct axis first, and the recorded magnitude is its length |
| Modulation.InjectionFits | field-oriented/src/control/foc.rs:161-202 | a voltage that leaves the amplitude free stays in the linear region with the injection added |
| Modulation.DutiesFitIff | field-oriented/src/control/foc.rs:207-218 | the duty cycles lie in [0, 1] if and only if the phases spread over no more than the bus |
| Modulation.DutiesDeliver | field-oriented/src/control/foc.rs:207-218 | the bus times a difference of duty cycles is the demanded difference of phase voltages |
| Modulation.LinearRegionIsDelivered | field-oriented/src/control/foc.rs:203-229 | in the linear region the final clamps change nothing and the bridge delivers the demanded voltage |
| HfiSources.PeriodTicks | field-oriented/src/control/hfi.rs:48-54 | the period is at least one tick and fits 32 bits |
| HfiSources.PeriodIsNearest | field-oriented/src/control/hfi.rs:48-54 | the period is the number of ticks nearest to that of the frequency |
| HfiSources.TurnedUnit | field-oriented/src/control/hfi.rs:85-88 | the phasor never leaves the unit circle |
| HfiSources.CounterIsModulo | field-oriented/src/control/hfi.rs:80-84 | the injection repeats with exactly its period |
| HfiSources.InjectionBounds | field-oriented/src/control/hfi.rs:74-76 | the injected voltage is never more than the amplitude |
| HfiSources.SinusoidalPulsingHfi.constructor | field-oriented/src/control/hfi.rs:48-63 | a new source starts at phase zero with the rounded period |
| HfiSources.SinusoidalPulsingHfi.Reset | field-oriented/src/control/hfi.rs:67-71 | and so does a reset one |
| HfiSources.SinusoidalPulsingHfi.Compute | field-oriented/src/control/hfi.rs:73-91 | each tick injects the amplitude times the sine of the phase and keeps the last two phasors |
| HfiSources.SinusoidalPulsingHfi.PreviousPhasor | field-oriented/src/control/hfi.rs:93-96 | the phasor of the tick before the last one |
| FieldWeakenings.BoundLeavesFlux | field-oriented/src/control/field_weakening.rs:51-70 | the bound stays in the current limit, does not reverse the flux, and the ratio is the fraction of the flux left there |
| FieldWeakenings.WeakeningWithinLimit | field-oriented/src/control/field_weakening.rs:72-97 | whatever gains, integral and speed, the current is never positive and stays within 99% of the limit |
| FieldWeakenings.RoomRelaxes | field-oriented/src/control/field_weakening.rs:83-96 | while the voltage leaves room the controller takes current back |
| FieldWeakenings.LackWeakens | field-oriented/src/control/field_weakening.rs:72-97 | while the voltage is short the controller weakens further, within the bound, and out of its range the integral decays |
| FieldWeakenings.FieldWeakening.Compute | field-oriented/src/control/field_weakening.rs:72-97 | the step in place, integral and output |
| Foc.CurrentsMeetCircle | field-oriented/src/control/foc.rs:135-150 | the target lies in the circle of the current limit, and goes as far towards the torque asked for as the circle allows |
| Foc.CurrentMakesTorque | field-oriented/src/control/foc.rs:141-145 | the current asked for makes the torque asked for |
| Foc.AppliedInLinearRegion | field-oriented/src/control/foc.rs:161-202 | saturated voltage and injection together never leave the linear region |
| Foc.DemandHoldsRotation | field-oriented/src/control/foc.rs:248-263 | to the output of the controllers the demand adds exactly the voltage the flux linkage induces at the speed, so that a controller output of R i demands the voltage that holds i in the turning motor |
| Foc.DemandsOfCommands | field-oriented/src/control/foc.rs:99-153 | which currents and which flux each command is held against |
| Foc.StepSucceedsIff | field-oriented/src/control/foc.rs:73-153 | a step succeeds if and only if it has the parameters and gains its command takes |
| Foc.StepReports | field-oriented/src/control/foc.rs:80-98 | electrical angle and speed, measured currents in the rotor frame, applied voltage turned back into it, and the injection on raw voltages and below the threshold speed only |
| Foc.NextStepSees | field-oriented/src/control/foc.rs:155-194 | what a step leaves for the next: the radius of the linear region, the demand, and exactly what the saturation took of it |
| Foc.AppliedIsKept | field-oriented/src/control/foc.rs:196-202 | the applied voltage is what is left of the demand, and the injection along the direct axis |
| Foc.CompensationRestores | field-oriented/src/control/foc.rs:220-225 | through a dead time against the current the compensated duty cycles deliver the intended ones |
| Foc.WeakeningFollowsVoltage | field-oriented/src/control/foc.rs:117-134 | with voltage to spare the weakening of a step relaxes, with the threshold passed it goes down |
| Foc.TorqueTargetInCircle | field-oriented/src/control/foc.rs:114-150 | for every torque, speed, weakening history and limit, with weakening or without, -0.99 limit <= i_d <= 0 and the target is in the circle |
| Foc.FOC.ComputeVoltages | field-oriented/src/control/foc.rs:248-263 | both controllers with the feedforward of Foc.DemandHoldsRotation, the order of the errors, and the new state of the controllers |
| Foc.FOC.ComputeTorqueTarget | field-oriented/src/control/foc.rs:114-150 | the torque command in place gives that target or the missing parameter, and the new weakening integral |
| Foc.FOC.ComputeDemand | field-oriented/src/control/foc.rs:99-153 | the demanded voltage of each of the five commands, and the whole new state |
| Foc.FOC.Compute | field-oriented/src/control/foc.rs:73-246 | one step in place: result and whole new state are those of the step on values, the injection moves on only with a success, the voltage is linear and the target in its circle |
| Foc.AppliedVoltageIsLinear | field-oriented/src/control/foc.rs:155-229 | on every command path the applied voltage stays in the linear region, and without dead-time compensation it is delivered whole |
| Foc.StepIsLinear | field-oriented/src/control/foc.rs:73-246 | every step from any state applies a linear voltage and keeps the torque target in its circle, and a failing one keeps what the next step compares with |
| Foc.RunsStayBounded | field-oriented/src/control/foc.rs:73-246 | over every run of steps from a cleared state, failing ones included, the weakening integral never turns positive and the remembered voltage is one of the linear region |
| FieldWeakenings.IntegralStaysNegative | field-oriented/src/control/field_weakening.rs:83-96 | a weakening integral that is not positive never becomes so |
| Foc.FOC.ClearWindup | field-oriented/src/control/foc.rs:296-305 | nothing of earlier steps is left |
| Angles.WrapNear | field-oriented/src/utils/math.rs:22-27 | the wrapped angle lies in [0, 2 pi), a whole turn away at most |
| Hall.SortByAngle | field-oriented/src/estimation/hall_estimation.rs:79-87 | the insertion sort in place sorts by angle and keeps the edges |
| Hall.SortingOrders | field-oriented/src/estimation/hall_estimation.rs:76-87 | the sorted edges hold every pattern once, with its angle |
| Hall.NextIsNearest | field-oriented/src/estimation/hall_estimation.rs:89-108 | the successor of a pattern is the nearest one forward, and the span is the way there, between 0 and a turn |
| Hall.CycleReaches | field-oriented/src/estimation/hall_estimation.rs:95-108 | from any pattern every pattern is met within six transitions, and once around is one turn |
| Hall.CycleMeetsOnce | field-oriented/src/estimation/hall_estimation.rs:95-108 | and none is met twice: the successor table is a single cycle of six |
| Hall.SpansPositiveIffDistinct | field-oriented/src/estimation/hall_estimation.rs:102-106 | the spans are all positive if and only if no two angles coincide |
| Hall.DirectionAntisymmetric | field-oriented/src/estimation/hall_estimation.rs:117-133 | going back over a transition turns the direction round |
| Hall.HallEstimator.SetCalibration | field-oriented/src/estimation/hall_estimation.rs:75-115 | the tables follow from the calibration |
| Hall.HallEstimator.Walk | field-oriented/src/estimation/hall_estimation.rs:92-108 | the loop over the sorted edges fills the three tables |
| Hall.HallEstimator.GetEstimate | field-oriented/src/estimation/hall_estimation.rs:135-216 | the two errors, the tracking state and the estimate of a sample |
| Hall.EstimateInSector | field-oriented/src/estimation/hall_estimation.rs:158-215 | for every pattern, in all three states and both directions, the angle lies on the closed arc of the current sector, no further past its first edge than the sector is long |
| Hall.SpeedStaysInSector | field-oriented/src/estimation/hall_estimation.rs:194-208 | at the estimated speed, tapered or not, the rotor has not left the sector since the last edge, and in the normal state the way it made is exactly that of the estimated angle |
| Hall.ThetaMeans | field-oriented/src/estimation/hall_estimation.rs:177-197 | the angle is the middle of the sector at standstill, and otherwise the entry edge and the way from it, at most half a sector until the direction is proven |
| Hall.SampleProves | field-oriented/src/estimation/hall_estimation.rs:10-30 | what one sample does to the proof of the direction |
| Hall.SteadyIsProven | field-oriented/src/estimation/hall_estimation.rs:10-30 | two transitions in one direction prove it from any memory, and no fewer from the start |
| Hall.ConstantSpeedIsExact | field-oriented/src/estimation/hall_estimation.rs:135-216 | a rotor that turns on at the speed of the last sector is estimated exactly, speed and angle, until the next edge |
| Debounce.CounterCounts | firmware-core/src/checks/debounce.rs:18-29 | the counter is the number of trailing samples against the committed value |
| Debounce.CommitNeedsPeriod | firmware-core/src/checks/debounce.rs:18-29 | a value is committed only at the end of a full period of it |
| Debounce.PeriodCommits | firmware-core/src/checks/debounce.rs:18-29 | and a full period of it commits it |
| SafeStrategy.SafeControlStrategy.FocTick | firmware-core/src/app/safe_strategy.rs:52-94 | the tick in place, strategy and command |
| SafeStrategy.RunsStayUndecided | firmware-core/src/app/safe_strategy.rs:65-82 | in every run the debounced switch of a reachable strategy is still false |
| SafeStrategy.FaultNeverReleasesShort | firmware-core/src/app/safe_strategy.rs:96-112 | in every run no fault turns an active short into an open bridge, other than the final one |
| SafeStrategy.FinalIsFinal | firmware-core/src/app/safe_strategy.rs:27-28 | the final open bridge stays through every tick and fault |
| SafeStrategy.SwitchesApart | firmware-core/src/app/safe_strategy.rs:65-82 | whatever ticks and faults lie between, two switches are at least ten ticks apart |
| SafeStrategy.TickSwitchesIff | firmware-core/src/app/safe_strategy.rs:44-94 | a tick switches exactly as the tenth in a row on which an open bridge may charge the bus, or may not, and a ramp-down ends after 10 ms in the state that the bus and the back-EMF ask for |
| SafeStrategy.TenTicksSwitch | firmware-core/src/app/safe_strategy.rs:62-82 | ten ticks of overvoltage, back-EMF above the bus or unknown back-EMF short an open bridge, ten calm ones open it again |
| SafeStrategy.FaultsReact | firmware-core/src/app/safe_strategy.rs:96-125 | what every fault does to a running drive, an open or shorted bridge and a ramp-down |
| SafeStrategy.GatesExclude | firmware-core/src/app/safe_strategy.rs:44-50 | with non-negative bus voltages no input asks for both switches |
| SafeStrategy.ConstantInputSwitchesOnce | firmware-core/src/app/safe_strategy.rs:65-82 | under a constant input at most one switch ever happens |
| Modes.ModeHolder.OnCommand | firmware-core/src/app/modes.rs:47-95 | the mode, trace included, and whether the command took effect |
| Modes.FaultLatches | firmware-core/src/app/modes.rs:49-66 | in every run a fault is left only by a clear outside the ramp-down |
| Modes.CommandsTakeEffect | firmware-core/src/app/modes.rs:47-95 | when each command takes effect and what it leads to; any other changes nothing |
| Modes.PolarityTestEntry | firmware-core/src/app/modes.rs:79 | the polarity test is entered from idle by request, and from nowhere else |
| Modes.TorqueControlEntry | firmware-core/src/app/modes.rs:88 | torque control is entered from the polarity test by its enable, and from nowhere else |
| Modes.FirstDistinctMeans | firmware-core/src/app/modes.rs:58-63 | the reference order: every cause once, by first assertion |
| Modes.TraceIsFirstEight | firmware-core/src/app/modes.rs:58-71 | in every run the filled trace is the first eight distinct causes since the fault came up, in order |
| FocSteps.DecidedByMode | firmware-core/src/app/control.rs:213-304 | which command, amplitude and limits each mode hands to the controller |
| FocSteps.FaultModulatesZeroTorque | firmware-core/src/app/control.rs:213-247 | whichever fault a tick raises, a tick that ends faulted or idle modulates zero torque or nothing |
| FocSteps.ModulatingNeedsInputs | firmware-core/src/app/control.rs:119-165 | modulating in torque control takes a setpoint, a valid feedback and a bus reading, and modulates the limited setpoint |
| FocSteps.FaultsEndFaulted | firmware-core/src/app/control.rs:108-192 | board faults, invalid feedback and calibration failures end the tick faulted |
| FocSteps.LimitedTorqueKeepsLimits | firmware-core/src/app/control.rs:264-281 | the demand never exceeds the setpoint, does not accelerate past the speed limit nor brake harder than allowed, and is the setpoint otherwise |
| FocSteps.AmplitudeAlwaysFits | firmware-core/src/app/control.rs:286-289 | the injection amplitude handed on is one the bus has room for |
| FocSteps.OverspeedIsMechanical | firmware-core/src/app/control.rs:194-208 | torque control ends faulted, for overspeed, when the mechanical speed passes its threshold in either direction, and modulates when nothing is wrong |
| FocSteps.TorqueDemandMeans | firmware-core/src/app/control.rs:264-281 | the speed limit and the braking limit in mechanical speed and braking current |
| FocSteps.BackEmfIsElectrical | firmware-core/src/app/control.rs:213-236 | the safe state is chosen by the back-EMF of the electrical speed, whichever speed the feedback gives |
| FocSteps.CalibrationModulates | firmware-core/src/app/control.rs:172-192 | a calibration modulates what its calibrator asks for, with the parameters found so far |
| FocSteps.PolarityResolves | firmware-core/src/app/control.rs:119-153 | how the polarity test ends, what it seeds and clears |
| FocSteps.FeedbackFaultsIff | firmware-core/src/app/control.rs:155-165 | an invalid feedback faults torque control and the polarity test, and nothing else |
| FocSteps.FaultsAreNamed | firmware-core/src/app/control.rs:108-165 | the trace of a fault starts with what was found first |
| FocSteps.CausesTellApart | firmware-core/src/app/faults.rs:55-95 | different failures show as different causes |
| FocSteps.CommandKeepsInStep | firmware-core/src/app/modes.rs:80-83 | no command takes a calibration out of step with its estimator |
| FocSteps.PlanKeepsInStep | firmware-core/src/app/control.rs:176-192 | nor does a step of the current loop |
| FocSteps.ResolvePolarity | firmware-core/src/app/control.rs:119-153 | the verdict of the polarity test decides mode and feedback, what the saliency estimator is seeded with, and that torque control starts with the windup cleared |
| FocSteps.StepCalibration | firmware-core/src/app/control.rs:172-208 | the calibrator is stepped in its active phases only, and its failure and overspeed are asserted |
| FocSteps.Decide | firmware-core/src/app/control.rs:213-304 | the safe command, the calibrator's, the test's or the limited setpoint, in place |
| FocSteps.Modulate | firmware-core/src/app/control.rs:307-329 | mode, controllers and outcome are determined by the computation: its result, or its fault and the safe state the drive falls back to |
| FocSteps.FocStep | firmware-core/src/app/control.rs:83-332 | mode, controllers, outcome, stage and seed of the whole step are functions of the old state and the inputs; what is modulated is linear and within the current limit |
| FocSteps.StepEnds | firmware-core/src/app/control.rs:83-97 | a step that does not modulate, or ends a stage other than a tuning request, leaves cleared controllers, and a computation that fails leaves the drive faulted with its cause |
| FocSteps.StepEndsBounded | firmware-core/src/app/control.rs:83-332 | no step of the drive leaves the bounds of the controllers |
| FocSteps.AfterFocStep | firmware-core/src/app/control.rs:334-360 | which estimator is fed with what after a step, and the parameters used next |
| FocSteps.AfterStepFeeds | firmware-core/src/app/control.rs:334-360 | torque control feeds the parameter estimator with what was modulated, and nothing else is fed outside a calibration |
| FocSteps.DriveTickIsNext | firmware-core/src/app/control.rs:172-360 | a tick of the drive, its step and what follows it, moves a calibration on exactly as a tick of a calibration run does |
| Identification.SolveMinimises | field-oriented/src/commission/utils.rs:27-69 | over any data the solution is the slope with the least squared residual, and the only one |
| Identification.SolvesIff | field-oriented/src/commission/utils.rs:54-68 | a solution exists if and only if there is enough data and the inputs are not negligible |
| Identification.SolveRecoversSlope | field-oriented/src/commission/utils.rs:40-68 | data on a line give its slope |
| Identification.ReciprocalIsExactIff | field-oriented/src/commission/motor_estimation.rs:58-73 | over any excitations of a winding with resistance the reciprocal of the inductance is solved exactly if and only if the resistance term cancels |
| Identification.SymmetricTestCancels | field-oriented/src/commission/motor_estimation.rs:58-61 | samples whose currents mirror each other cancel the resistance term |
| Identification.MeanOnLine | field-oriented/src/commission/utils.rs:71-100 | the mean of data on a line is on the line |
| Identification.TrueFluxIsFixed | field-oriented/src/commission/utils.rs:127-139 | the true flux is a fixed point of the solver |
| Identification.FixedPointMeasures | field-oriented/src/commission/utils.rs:127-139 | every fixed point with a flux explains the measurement |
| Identification.EqualInductancesSolveAtOnce | field-oriented/src/commission/utils.rs:127-139 | with equal inductances one iteration from any angle gives the true flux |
| MotorEstimation.SampleKeepsConsistent | field-oriented/src/commission/motor_estimation.rs:460-501 | whatever the sample, the parameters found so far are those the state implies, and positive |
| MotorEstimation.TuningNeverMissesParameter | field-oriented/src/commission/motor_estimation.rs:433-449 | the missing-parameter branch of the tuning acknowledgement is never taken |
| MotorEstimation.SampleRunsDown | field-oriented/src/commission/motor_estimation.rs:130-321 | every sample runs the tick bound of the state down, and settled states stay |
| MotorEstimation.WaitIsBounded | field-oriented/src/commission/motor_estimation.rs:130-321 | any run of samples as long as the bound ends waiting, done or failed |
| MotorEstimation.BoundAtStart | field-oriented/src/commission/motor_estimation.rs:360-449 | the bound from the start and from each acknowledgement, in the configured times |
| MotorEstimation.ResistanceIsRecovered | field-oriented/src/commission/motor_estimation.rs:155-206 | from the start, samples of a resistance and a dead-time ratio give exactly these |
| MotorRecoveries.ResistanceIsFound | field-oriented/src/commission/motor_estimation.rs:130-206 | from the start, a locked motor at the commanded currents gets its resistance and dead-time ratio measured exactly within the configured times |
| MotorRecoveries.LevelIsReached | field-oriented/src/commission/motor_estimation.rs:155-170 | a level is measured once within 5% of its target, and fails after the test time |
| MotorRecoveries.SquareWaveTurns | field-oriented/src/commission/motor_estimation.rs:207-260 | when the square wave turns round, and exactly when it ends with an inductance |
| MotorEstimation.RunExcites | field-oriented/src/commission/motor_estimation.rs:207-232 | the accumulated data of an inductance test are those of the samples between equal signs past the first flip, each signed by the commanded voltage |
| MotorEstimation.InductanceIsExactIff | field-oriented/src/commission/motor_estimation.rs:207-260 | when samples of a winding end the test of an axis, the inductance found is exactly that of the winding if and only if the resistance term cancels over the samples that counted |
| MotorEstimation.SumsMeasure | field-oriented/src/commission/motor_estimation.rs:283-291 | the solver made from the accumulated voltages and currents measures the flux of the motor they are of |
| MotorEstimation.RunSpins | field-oriented/src/commission/motor_estimation.rs:265-319 | what every run of samples of a turning motor keeps, through spin-up, measurement and ramp-down |
| MotorEstimation.FluxIsRecovered | field-oriented/src/commission/motor_estimation.rs:265-319 | from the acknowledgement of the tuning, samples of a turning motor give the ramp-down a solver that measures its flux, whatever the saliency, and with equal inductances the estimator is done only with exactly that flux |
| MotorRecoveries.FluxIsFound | field-oriented/src/commission/motor_estimation.rs:265-319 | from the acknowledgement of the tuning, a motor with equal inductances that turns as commanded gets its flux measured exactly within the configured times |
| MotorRecoveries.RotationSpeedsUp | field-oriented/src/commission/motor_estimation.rs:265-281 | the rotation speeds up in proportion to the time and turns its angle by its speed |
| MotorRecoveries.RampTurnsOn | field-oriented/src/commission/motor_estimation.rs:301-319 | the ramp-down keeps turning until its time is out |
| MotorEstimation.OfflineMotorEstimator.Start | field-oriented/src/commission/motor_estimation.rs:360-364 | the start in place |
| MotorEstimation.OfflineMotorEstimator.AcknowledgeHallCalibration | field-oriented/src/commission/motor_estimation.rs:419-423 | the answer to a Hall request, and nothing without one |
| MotorEstimation.OfflineMotorEstimator.AcknowledgeTuningRequest | field-oriented/src/commission/motor_estimation.rs:433-449 | the answer to a tuning request, and nothing without one |
| MotorEstimation.OfflineMotorEstimator.StepResistance | field-oriented/src/commission/motor_estimation.rs:155-206 | the resistance test, in place |
| MotorEstimation.OfflineMotorEstimator.StepInductance | field-oriented/src/commission/motor_estimation.rs:207-260 | the inductance test, in place |
| MotorEstimation.OfflineMotorEstimator.StepFlux | field-oriented/src/commission/motor_estimation.rs:265-300 | the rotation, in place |
| MotorEstimation.OfflineMotorEstimator.StepRamp | field-oriented/src/commission/motor_estimation.rs:301-319 | the ramp-down, in place |
| MotorEstimation.OfflineMotorEstimator.AfterFocIteration | field-oriented/src/commission/motor_estimation.rs:461-501 | a sample in place: state, parameters and the unwind request |
| CalibrationRuns.CalibrationRunner.Step | firmware-core/src/app/calibration.rs:126-205 | a step in place: phase, estimator, output and stage result |
| CalibrationRuns.CalibrationRunner.Resume | firmware-core/src/app/calibration.rs:238-254 | a resume in place |
| CalibrationRuns.RunsStayInStep | firmware-core/src/app/calibration.rs:126-254 | over every run, with resumes at any time, the phase and the estimator agree on what is waited for |
| CalibrationRuns.DeliveredParametersAreComplete | firmware-core/src/app/calibration.rs:171-177 | delivered parameters are all present, and resistance, inductances and flux are positive |
| CalibrationRuns.ResumeAnswersRequest | firmware-core/src/app/calibration.rs:237-254 | a resume outside a wait changes nothing, and in a wait it answers the pending request |
| CalibrationRuns.CommandsOfTests | field-oriented/src/commission/motor_estimation.rs:367-404 | the command of each test is the one whose answer it reads |
| CalibrationRuns.StagesAnswer | firmware-core/src/app/calibration.rs:126-205 | what a step answers in each phase, failures and time-outs included |
| CalibrationRuns.TickShortensEstimation | firmware-core/src/app/calibration.rs:163-199 | every modulating tick ends the estimation or shortens what is left of it |
| CalibrationRuns.EstimationEnds | firmware-core/src/app/control.rs:334-350 | while the drive modulates, the estimation hands over or finishes within a bound that follows from the configured times |
| PolarityTests.PolarityTest.Reset | field-oriented/src/estimation/utils.rs:64-68 | a reset starts over, or is done when the polarity is known |
| PolarityTests.PolarityTest.Abort | field-oriented/src/estimation/utils.rs:70-74 | an abort ends an active test only |
| PolarityTests.PolarityTest.Step | field-oriented/src/estimation/utils.rs:92-152 | a step in place, state and correction |
| PolarityTests.VerdictInTime | field-oriented/src/estimation/utils.rs:92-152 | whatever the samples, there is a verdict within three steps after the timeout |
| PolarityTests.VerdictIsCertainIff | field-oriented/src/estimation/utils.rs:100-101 | and that is certain if and only if the timeout is not the largest 32-bit number |
| PolarityTests.SuccessIsEarned | field-oriented/src/estimation/utils.rs:114-147 | success needs the dwell time in tolerance, then as the last steps the test time observed, whose currents, demodulated with the second harmonic of the injection, decide the correction |
| PolarityTests.CorrectionFollowsSaturation | field-oriented/src/estimation/utils.rs:114-147 | when the currents hold a second harmonic, and nothing else in step with it, a success turns the angle by half a turn if and only if that harmonic is negative |
| PolarityTests.LockedRotorSucceeds | field-oriented/src/estimation/utils.rs:92-152 | a rotor locked from the first sample gets its verdict and its correction in the time the configuration sets |
| PolarityTests.FaultsMean | field-oriented/src/estimation/utils.rs:92-152 | what each fault of the test says |
| PolarityTests.CorrectedOnce | field-oriented/src/estimation/utils.rs:134-142 | the angle is corrected on at most one step, the one that ends the test |

## Left out

- Floating-point rounding, overflow, NaN and infinity, and with them the checks for finite values: numbers are reals. A division by zero gives zero where the original would give an infinity; the branches that depend on one are modelled by their outcome.
- Flash errors, partial erases and a power-on reset during a revert: outside the fault model.
- The notch filters of the current loop, the low-pass filter of the polarity test, the PLL and the flux observer: what a filter lets through is a parameter.
- The values of sine, cosine, exponential and square root, the CRC polynomials and the serializer: parameters, with the laws stated at the top.
- The sweep of the Hall calibrator: what it reads as at each step is a parameter. So are the readings of the saliency estimator: what it is seeded with is stated, what it makes of the seed is not.
- Gain setting of the current and weakening controllers, `FirmwareConfig`, message framing and integrity, feedback arbitration, capture: easy members.
- Drivers, interrupts, locking between tasks, message formats, the simulator and the build scripts: plumbing.
- 32-bit wrap-around of tick and sample counters: bounded by the proved durations, and modelled where a counter saturates.
- `Debounced`, the accumulators and the flux solver are values inside the state that owns them: update in place of these is not captured.
- BootRuns.RunsAreSafe: a boot that finds a half-done revert must still see the watchdog flag; `BootCuts.UnflaggedBootDuringRevert` says what happens otherwise.
- RecordLog.PowerLossKeepsOldOrNew: torn bytes that make up a whole record of another payload, checksum included, are excluded, as nothing can tell them apart.
- RecordLog.RunsLoadStored: assumes the same of the torn bytes of every event of the run.
