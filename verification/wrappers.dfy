/** Optional values, standing in for protobuf's has_/release_ field presence
    and for boost::optional in the legacy message structs. */
module Wrappers {

  datatype Option<+T> = None | Some(value: T) {

    /** The value if present, otherwise `default`. */
    function GetOr(default: T): T {
      match this
      case Some(v) => v
      case None => default
    }
  }
}
