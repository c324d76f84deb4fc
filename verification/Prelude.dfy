/** Small shared vocabulary: optional values (SQL NULL, Python None). */
module Prelude {

  datatype Option<+T> = None | Some(value: T) {
    function GetOr(default: T): T {
      if Some? then value else default
    }
  }

  function Max(a: int, b: int): int {
    if a >= b then a else b
  }
}
