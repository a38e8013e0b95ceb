/** Optional values and optional arguments. */
module Options {
  datatype Option<+T> = None | Some(value: T)

  /** `value or default`: a missing argument and 0 both mean the default. */
  function OrDefault(value: Option<nat>, default: nat): nat {
    match value
    case None => default
    case Some(v) => if v == 0 then default else v
  }
}
