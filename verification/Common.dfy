/** Small values shared by all components. */
module Common {

  datatype Option<+T> = None | Some(value: T)

  type Octet = x: int | 0 <= x < 256

  function Min(a: int, b: int): int { if a < b then a else b }

  function Max(a: int, b: int): int { if a < b then b else a }
}
