/** Types the services share. */
module Contracts {
  type byte = x: int | 0 <= x < 256

  type Bytes = seq<byte>

  datatype Identifier = Identifier(namespace: string, value: string)

  datatype Digest = Digest(algorithm: string, hex: string)
}
