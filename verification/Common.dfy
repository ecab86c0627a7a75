/** Small datatypes shared by all modules. */
module Common {
  datatype Option<+T> = None | Some(value: T) {
    function GetOr(default: T): T { if this.Some? then value else default }
  }
}
