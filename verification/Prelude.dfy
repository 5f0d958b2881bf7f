/** Small types every component shares. */
module Prelude {
  datatype Option<+T> = None | Some(value: T)
}
