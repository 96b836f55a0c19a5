/** Optional values, and results of computations that can fail because the
    exposure test found no general in the mover's palace. */
module Outcomes {

  datatype Option<+T> = None | Some(value: T)

  /** `NoGeneral` stands for the failure of the exposure test when the mover's
      palace holds no general: the general's position stays undefined and the
      first use of it fails, which aborts every computation above it. */
  datatype Fallible<+T> = Done(value: T) | NoGeneral
}
