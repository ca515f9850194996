/** Small types and functions shared by the modules. */
module Common {
  datatype Option<+T> = None | Some(value: T)

  type Byte = n: nat | n < 256

  function Max(a: nat, b: nat): nat {
    if a < b then b else a
  }

  function Min(a: nat, b: nat): nat {
    if a < b then a else b
  }

  /** Times that follow each other at least one interval apart. */
  predicate Spaced(interval: int, t: seq<int>) {
    forall i | 1 <= i < |t| :: t[i] - t[i - 1] >= interval
  }
}
