/** Small value types shared by every part of the model. */
module Common {

  datatype Option<+T> = None | Some(value: T)

  datatype Result<+T, +E> = Ok(value: T) | Err(error: E)

  /** What may happen to one write request on its way to the API server and back. */
  datatype Fault =
    | NoFault    // the request arrives and the answer comes back
    | Dropped    // the request never takes effect and the caller sees an error
    | LostReply  // the request takes effect (if its version is current) but the caller sees an error
}
