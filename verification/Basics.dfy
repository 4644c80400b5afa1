// What several components share.
module Basics {

  type Byte = x: nat | x < 256

  predicate Distinct<T(==)>(q: seq<T>) { forall i, j | 0 <= i < j < |q| :: q[i] != q[j] }
}
