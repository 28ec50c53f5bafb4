/** Injected file-system failures. */
module Faults {

  /** An operation may raise before it takes effect, or after: the rename is done and the directory sync fails. */
  datatype Fault = NoFault | RaisesBefore | RaisesAfter

  function FaultAt(faults: seq<Fault>, i: nat): Fault {
    if i < |faults| then faults[i] else NoFault
  }
}
