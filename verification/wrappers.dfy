/** The optional value used wherever the pipeline has "None" (no cutoff, no watermark yet). */
module Wrappers {
  datatype Option<+T> = None | Some(value: T)
}
