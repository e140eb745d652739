/** What goes into and comes out of one current-control step: field-oriented/src/types.rs. */
module FocTypes {
  import opened Transforms

  datatype AngleType = Mechanical | Electrical

  datatype RotorFeedbackFault = NotCalibrated | MissingParameter | NoFeedback | ErroneousValue | Unobservable

  datatype RotorFeedback = RotorFeedback(angleType: AngleType, theta: real, omega: real)

  datatype FocCommand =
    | CalibrationVoltage(u: ClarkPark)
    | CalibrationCurrents(i: ClarkPark)
    | TargetCurrents(i: ClarkPark)
    | RawVoltages(u: ClarkPark)
    | TargetTorque(torque: real)

  datatype HfiParams = HfiParams(amplitudeV: real, injectionFrequencyHz: real, disableThresholdOmegaRads: real)

  datatype FocInput = FocInput(
    command: FocCommand,
    dcBusVoltageV: real,
    angleType: AngleType,
    theta: real,
    omega: real,
    phaseCurrents: Phases,
    currentLimitA: real,
    hfiParams: HfiParams)

  datatype FocFault = MissingMotorParams | MissingControllerGains | InvalidParameter | NumericalError

  datatype FocResult = FocResult(
    thetaE: real,
    omegaE: real,
    dcBusVoltageV: real,
    dutyCycles: Phases,
    voltageHexagonSector: int,
    measuredIAb: AlphaBeta,
    measuredIDq: ClarkPark,
    targetIDq: ClarkPark,
    uDq: ClarkPark,
    uAb: AlphaBeta,
    isInjecting: bool,
    hfiIDq: ClarkPark,
    hfiParams: HfiParams)
}
