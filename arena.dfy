/** Index-addressed shared memory.
    Every pointer the cleanup routine follows is an index into one arena, and the
    non-faulting memory probe is a membership test on the set of indices that are
    mapped with the access the caller asks for. */
module Arena {

  datatype Option<T> = None | Some(value: T)
  {
    function GetOr(default: T): T
    {
      if Some? then value else default
    }
  }

  /** A pointer into one arena; Null is C's NULL. */
  datatype Ref = Null | At(i: nat)

  /** The memory probe: true exactly when the pointer is non-null, lies inside the
      arena and the storage behind it is mapped. It never faults. */
  predicate Probe(len: nat, mapped: set<nat>, r: Ref)
  {
    r.At? && r.i < len && r.i in mapped
  }

  /** The values of a C `uint4`. */
  type Uint32 = x: nat | x < 0x1_0000_0000

  /** The values of a C `int4`. */
  type Int32 = x: int | -0x8000_0000 <= x < 0x8000_0000

  /** An unsigned 32-bit counter incremented with wrap-around (`x++` on uint4). */
  function Incr32(x: nat): (r: nat)
    ensures r < 0x1_0000_0000
    ensures x + 1 < 0x1_0000_0000 ==> r == x + 1
  {
    (x + 1) % 0x1_0000_0000
  }
}
