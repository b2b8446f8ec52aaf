/**
 * The host conversions the mapping calls but whose code is not part of this
 * model. They are handed to the model as uninterpreted functions; nothing
 * is assumed about them (in particular, Keccak-256 is not taken to be
 * injective).
 */
module Runtime {

  newtype uint8 = x: int | 0 <= x < 0x100

  /** A `Bytes` / `ByteArray` / `Address` value: a sequence of bytes. */
  type Bytes = seq<uint8>

  datatype Host = Host(
    /** `crypto.keccak256` */
    keccak256: Bytes -> Bytes,
    /** `ByteArray.fromHexString` and `Bytes.fromHexString` */
    bytesFromHex: string -> Bytes,
    /** `Bytes.toHex()` and `Bytes.toHexString()`, which render the same string */
    bytesToHex: Bytes -> string,
    /** `BigInt.toHexString()` */
    bigIntToHex: nat -> string)
}
