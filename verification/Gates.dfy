/** What every scanner gate raises when it fails closed. */
module Gates {
  datatype GateError = GateError
}
