/** The optional value the script gets from a failed lookup, a regex search
    without a match or an unset environment variable. */
module Wrappers {
  datatype Option<+T> = None | Some(value: T)
}
