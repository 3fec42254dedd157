/** The optional value used for the state's absent-until-set fields (the
    cached image, the selected region, the press point of a drag) and for
    parse results. */
module Wrappers {
  datatype Option<T> = None | Some(value: T)
}
