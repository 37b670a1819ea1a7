/** An optional value: a message field the client may leave out, or a
    lookup that may find nothing. */
module Optional {

  datatype Option<+T> = None | Some(value: T) {

    /** The value when present, otherwise `default` -- the relay's
        `field || ''` on an optional string field. */
    function GetOr(default: T): T {
      match this
      case Some(v) => v
      case None => default
    }
  }
}
