/** The JavaScript `null` of the dashboard, as an explicit optional value. */
module Wrappers {

  /** `None` stands for `null`: no gender filter, a missing GDP, an undefined domain bound. */
  datatype Option<+T> = None | Some(value: T)
}
