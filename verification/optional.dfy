/** An optional value, for the decoders that may find no value to return
    and for the request id `beginTxn` leaves null. */
module Optional {

  datatype Option<T> = None | Some(value: T)
}
