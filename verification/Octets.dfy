module Octets {
  /** A byte as a number, where the code computes with it. */
  type Octet = b: int | 0 <= b < 256
}
