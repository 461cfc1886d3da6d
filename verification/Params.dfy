/** The limits of param.h, the range of unsigned int and a fact on sets, shared by the models. */
module Params {
  /** The number of values of a 32-bit unsigned int. */
  const UINT: int := 0x1_0000_0000
  const MAXOPBLOCKS: nat := 10
  const LOGSIZE: nat := MAXOPBLOCKS * 3

  function Min(a: int, b: int): int {
    if a < b then a else b
  }

  function Max(a: int, b: int): int {
    if a > b then a else b
  }

  lemma SubsetSize<T>(s: set<T>, t: set<T>)
    requires s <= t
    ensures |s| <= |t|
    ensures |s| == |t| ==> s == t
  {
    assert t == s + (t - s);
  }
}
