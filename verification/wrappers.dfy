/** Optional values: a form field left empty, a sieve row that is not in the table. */
module Wrappers {

  datatype Option<+T> = None | Some(value: T)

}
