/** Optional values, used where the source can produce "nothing" (a missing
    attribute, a value no switch arm accepts, input a decoder rejects). */
module Wrappers {

  datatype Option<+T> = None | Some(value: T)
}

/** Octets, as produced by `Encoding.UTF8.GetBytes` and consumed by
    `Convert.ToBase64String`. */
module Bytes {

  type Byte = b: int | 0 <= b < 0x100
}
