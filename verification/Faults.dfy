/** The causes of faults: firmware-core/src/app/faults.rs. */
module Faults {
  import opened FocTypes

  datatype FaultCause =
    | NoFault
    | Overcurrent | Overtemperature | DcUnderVoltage | DcOverVoltage | RegenLimitExceeded | Overspeed | Break1 | Break2
    | WatchdogReboot | MemoryFlashFault | MemoryCorruptedData | MemoryTooLarge | ConfigOutOfRange
    | FirmwareUpdateTooLarge | FirmwareUpdateLengthMismatch | FirmwareUpdateCrcMismatch | FirmwareUpdateReverted
    | CalibrationTimeout | HallEdgeDisagreement | EstimationOverflow | EstimationInsufficientSamples
    | EstimationDegenSolution | EstimationParameterOutOfBounds | EstimationTargetCurrentUnreachable
    | TuningInfeasibleParameters | TuningInvalidTuningGoals | TuningUnstable
    | MotorParamsMissing | ControllerGainsMissing | SensorlessPolarityTestFault | InvalidRotorFeedback
    | ControllerNumericalError | RealtimeViolated | CANMessageIntegrity | SetpointTimeout

  function FromFoc(fault: FocFault): FaultCause {
    match fault
    case MissingMotorParams => MotorParamsMissing
    case MissingControllerGains => ControllerGainsMissing
    case NumericalError => ControllerNumericalError
    case InvalidParameter => ControllerGainsMissing
  }
}
