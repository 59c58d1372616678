/** Octets, and numbers in network byte order. */
module Octets {
  type Octet = x: int | 0 <= x < 256
  type Word = x: int | 0 <= x < 65536

  function Big(n: Word): (b: seq<Octet>)
    ensures |b| == 2
  {
    [n / 256, n % 256]
  }

  function FromBig(hi: Octet, lo: Octet): Word {
    hi * 256 + lo
  }

  lemma BigInverts(hi: Octet, lo: Octet)
    ensures Big(FromBig(hi, lo)) == [hi, lo]
  {
  }

  function Bit6(x: Octet): bool {
    x / 64 % 2 == 1
  }
}
