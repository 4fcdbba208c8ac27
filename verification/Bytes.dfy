/** Byte strings, and the two small datatypes that every other module uses. */
module Bytes {

  type Byte = b: int | 0 <= b < 256

  /** The bytes of a C++ `std::string` or `std::vector<std::uint8_t>`. */
  type Text = seq<Byte>

  // Ranges of the signed integers on the wire.
  const INT16_MIN := -0x8000
  const INT16_MAX := 0x7FFF
  const INT24_MIN := -0x80_0000
  const INT24_MAX := 0x7F_FFFF

  function Min(a: nat, b: nat): nat {
    if a < b then a else b
  }

  datatype Option<+T> = None | Some(value: T) {

    predicate IsFailure() {
      None?
    }

    function PropagateFailure<U>(): Option<U>
      requires None?
    {
      None
    }

    function Extract(): T
      requires Some?
    {
      value
    }
  }

  /** The entry of `m` at `k`, as a `std::map::find` reports it. */
  function Lookup<K, V>(m: map<K, V>, k: K): Option<V> {
    if k in m then Some(m[k]) else None
  }
}
