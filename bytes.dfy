/** Octets, as base64 encodes them and as a stored UTF-8 blob is made of. */
module Bytes {
  type Byte = b: int | 0 <= b < 256
}
