/** Octets, and the application data units the link layer carries without looking inside. */
module Octets {
  type Octet = x: int | 0 <= x < 256

  type Asdu = seq<Octet>
}
