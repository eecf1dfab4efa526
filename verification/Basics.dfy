/** Sizes and types shared by the modules. */
module Basics {
  const WORD_LIMIT: nat := 0x1_0000_0000
  const BLOCK_SIZE: nat := 512
  const PAGE_SIZE: nat := 4096
  const RAM_START: nat := 0x80000000
  const RAM_END: nat := 0x81000000
  const APPS_ARG: nat := 0x80600000
  const ARG_PAGE: nat := 0x80600         // page number of APPS_ARG
  const CALL_PAGE: nat := 0x80601        // page number of SYSCALL_ARG
  const GPID_ALL: int := -1
  const USER_START: int := 5             // the first process number that is not a server's
  const CMD_NARGS: nat := 16
  const CMD_ARG_LEN: nat := 32

  type Byte = b: nat | b < 0x100
  type Word = w: nat | w < 0x1_0000_0000

  datatype Option<T> = None | Some(value: T)

  /** The size of a set of consecutive numbers. */
  lemma {:induction false} Interval(v: nat, n: nat, s: set<nat>)
    requires forall k: nat :: k in s <==> v <= k < v + n
    ensures |s| == n
  {
    if n == 0 {
      assert s == {};
    } else {
      Interval(v, n - 1, s - {v + n - 1});
      assert s == (s - {v + n - 1}) + {v + n - 1};
    }
  }
}
