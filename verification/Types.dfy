/** Types shared by the session table and the registry. */
module Types {
  import opened Bytes

  /** A tracker's identity: the bytes of a Go string. */
  type Imei = seq<byte>

  datatype Option<+T> = None | Some(value: T)
}
