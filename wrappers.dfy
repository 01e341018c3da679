/** An optional value: the model's stand-in for "nothing was produced" (no request sent,
    a reply or number that does not parse, a datagram that is dropped). */
module Wrappers {

  datatype Option<+T> = None | Some(value: T)
}
