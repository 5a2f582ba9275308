/** Small vocabulary shared by the component models. */
module Common {

  datatype Option<+T> = None | Some(value: T)

  const U32: int := 0x1_0000_0000
  const U64: int := 0x1_0000_0000_0000_0000

  /** The last `k` elements of `s`, or all of `s` when it is shorter. */
  function Last<T>(s: seq<T>, k: nat): (r: seq<T>)
  {
    if |s| <= k then s else s[|s| - k..]
  }
}
