/** Bytes and the errors of the binary-data functions of the global context. */
module Bytes {
  newtype Byte = x: int | 0 <= x < 0x100

  datatype BinaryError =
    | FormatError              // FormatException of the Base16 text decoder
    | InvalidArgumentType      // a null argument
    | InvalidCast              // an array element that is not binary data
    | InvalidArgumentValue(argNumber: nat)
}
