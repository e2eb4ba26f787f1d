/** Types that several components use. */
module Wrappers {

  datatype Option<T> = None | Some(value: T)
}
