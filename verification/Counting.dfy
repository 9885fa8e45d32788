module Counting {
  function One(b: bool): int {
    if b then 1 else 0
  }
}
