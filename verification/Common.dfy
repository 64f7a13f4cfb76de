/** Parameters of kernel/param.h and kernel/riscv.h, and notions that several models share. */
module Common {
  const MAXOPBLOCKS := 10   // blocks one file system operation may log
  const LOGBLOCKS := 30     // blocks in the log: MAXOPBLOCKS * 3
  const NBUF := 30          // buffers in the cache: MAXOPBLOCKS * 3
  const PGSIZE := 4096      // bytes per page

  datatype Option<T> = None | Some(value: T)

  /** How many pages hold `x` bytes. */
  function Pages(x: nat): nat { (x + PGSIZE - 1) / PGSIZE }

  lemma {:induction false} CardinalityLe(a: set<nat>, b: set<nat>)
    requires a <= b
    ensures |a| <= |b|
    decreases |a|
  {
    if a != {} {
      var x :| x in a;
      CardinalityLe(a - {x}, b - {x});
    }
  }
}
