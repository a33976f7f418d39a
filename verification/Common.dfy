/** What several parts of the model share. */
module Common {

  datatype Option<T> = None | Some(value: T)

  const U32: int := 0x1_0000_0000
  const MAXOPBLOCKS: nat := 10        // blocks that one file system operation may log

  type byte = x: int | 0 <= x < 256
  type uint = x: int | 0 <= x < U32

  /** A disk block where only its identity matters. */
  type Contents = seq<int>

  lemma {:induction false} SubsetSize(a: set<nat>, b: set<nat>)
    requires a <= b
    ensures |a| <= |b|
    decreases b
  {
    if x :| x in a {
      SubsetSize(a - {x}, b - {x});
    }
  }
}
