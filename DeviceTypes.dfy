/** The device value types the drivers exchange. */
module DeviceTypes {
  import opened Wrappers

  /** A `DeviceValueUnit` enumerator. */
  type Unit = nat

  /**
   * `DeviceValues`: a value tagged with its unit. `amount` is what `getAsUnit<float>()`
   * yields for it, none when the value cannot be represented as a float.
   */
  datatype DeviceValues = DeviceValues(unit: Unit, amount: Option<real>)

  /** `DeviceOperationResult`. */
  datatype DeviceOperationResult = OperationOk | OperationFailure | NotSupported
}
