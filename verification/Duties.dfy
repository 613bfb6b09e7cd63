/** Duties, as every protocol names them. */
module Duties {
  datatype Duty = Duty(slot: nat, dutyType: nat)
}
