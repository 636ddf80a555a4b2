/** The optional value used for JSON fields that may be absent and for payloads that fail to parse. */
module Common {

  datatype Option<+T> = None | Some(value: T)
}
