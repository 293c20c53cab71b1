/** Python's `None`-or-value, as the functions of wut/utils.py modelled here pass optional strings around. */
module Wrappers {

  datatype Option<+T> = None | Some(value: T)
}
