// Shared result types and the error values that the modelled operations return.

module Common {

  datatype Option<+T> = None | Some(value: T)

  datatype Result<+T, +E> = Ok(value: T) | Err(error: E)

  /** Errors of the IPLD collections (HAMT, KAMT, AMT). */
  datatype IpldError =
    | InvalidHashBitLen
    | MaxDepth
    | ZeroPointers
    | StartKeyNotFound
    | OutOfRange
    | Malformed

  const U64_MAX: nat := 0xffff_ffff_ffff_ffff

  function Min(a: int, b: int): (r: int)
    ensures r <= a && r <= b && (r == a || r == b)
  {
    if a < b then a else b
  }

}
