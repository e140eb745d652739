/** What is known of the motor: field-oriented/src/commission/mod.rs. */
module MotorParameters {
  import opened Wrappers

  type u8 = x: nat | x < 0x100

  datatype MotorParamsEstimate = MotorParamsEstimate(
    numPolePairs: Option<u8>,
    statorResistance: Option<real>,
    dInductance: Option<real>,
    qInductance: Option<real>,
    pmFluxLinkage: Option<real>,
    deadtimeRatio: Option<real>)
  {
    /** Torque per ampere of q-axis current. */
    function TorqueConstant(): Option<real> {
      if numPolePairs.Some? && pmFluxLinkage.Some?
      then Some(1.5 * numPolePairs.value as real * pmFluxLinkage.value)
      else None
    }
  }
}
