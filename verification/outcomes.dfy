/** Option and Result values shared by the three game models. A Ruby method
    that may answer `nil` is modelled with Option; a step that would raise
    in Ruby is modelled with a Failure. */
module Outcomes {

  datatype Option<+T> = None | Some(value: T)

  datatype Result<+T> = Success(value: T) | Failure(reason: string)
}
