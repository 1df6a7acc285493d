/** File capability bits, the "caps in use" mask that check_caps computes,
    and the two bit tests FileCache makes on masks. */
module Caps {

  /** A C `int`: the type of the capability masks FileCache stores and of
      the keys of its callback table. */
  type CInt = x: int | -0x8000_0000 <= x < 0x8000_0000

  /** The bit pattern of a C `int`, on which `~` and `&` act. */
  type Mask = bv32

  /** The two's-complement bit pattern of `x`. */
  function Bits(x: CInt): Mask {
    (x % 0x1_0000_0000) as bv32
  }

  // The four file capabilities. Their header is not part of this model; all
  // that is used below is that they are four distinct single bits.
  const CAP_FILE_RDCACHE: Mask := 1   // reads may be served from the cache
  const CAP_FILE_RD: Mask := 2        // reads are allowed
  const CAP_FILE_WR: Mask := 4        // writes are allowed
  const CAP_FILE_WRBUFFER: Mask := 16 // writes may be buffered

  /** All four file capabilities. */
  const ALL_FILE_CAPS: Mask := CAP_FILE_RDCACHE | CAP_FILE_RD | CAP_FILE_WR | CAP_FILE_WRBUFFER

  /** Whether `mask` holds `bit`, i.e. the C test `mask & bit`. */
  predicate Holds(mask: Mask, bit: Mask) {
    mask & bit != 0
  }

  /** The capabilities the file's present state requires: reading or writing
      in flight, data held in the cache, data dirty or being committed. */
  function Used(numReading: nat, cached: bool, numWriting: nat, dirtyOrCommitting: bool): (used: Mask)
    ensures Holds(used, CAP_FILE_RD) <==> numReading > 0
    ensures Holds(used, CAP_FILE_RDCACHE) <==> cached
    ensures Holds(used, CAP_FILE_WR) <==> numWriting > 0
    ensures Holds(used, CAP_FILE_WRBUFFER) <==> dirtyOrCommitting
    ensures used & !ALL_FILE_CAPS == 0
  {
    (if numReading > 0 then CAP_FILE_RD else 0)
    | (if cached then CAP_FILE_RDCACHE else 0)
    | (if numWriting > 0 then CAP_FILE_WR else 0)
    | (if dirtyOrCommitting then CAP_FILE_WRBUFFER else 0)
  }

  /** The test check_caps applies to a pending group keyed by `key`, as
      written: the group is taken as implemented when `used` holds a bit
      that `key` lacks. */
  predicate Implemented(key: CInt, used: Mask) {
    !Bits(key) & used != 0
  }

  /** check_caps' test in terms of the file's state: an entry keyed by `key`
      is implemented exactly when the file uses some capability that `key`
      does not hold. */
  lemma ImplementedWhenUsageExceeds(key: CInt, numReading: nat, cached: bool, numWriting: nat, dirtyOrCommitting: bool)
    ensures Implemented(key, Used(numReading, cached, numWriting, dirtyOrCommitting)) <==>
            || (numReading > 0 && !Holds(Bits(key), CAP_FILE_RD))
            || (cached && !Holds(Bits(key), CAP_FILE_RDCACHE))
            || (numWriting > 0 && !Holds(Bits(key), CAP_FILE_WR))
            || (dirtyOrCommitting && !Holds(Bits(key), CAP_FILE_WRBUFFER))
  {
  }

  /** The condition set_caps asserts when a completion is attached: the new
      mask drops at least one capability held before. */
  predicate LosesCaps(latest: CInt, caps: CInt) {
    Bits(latest) & !Bits(caps) != 0
  }
}
