/**
 * The scheduler's utilities: the delay constants, and the construction,
 * pruning, ordering and weighting of the gate DAG.  Gates are named by index;
 * `pre[g]` and `post[g]` are the index lists of gate `g`'s predecessors and
 * successors.
 */
module Util {
  /** Passes to move a T state to a neighbouring patch. */
  const MOVE_T_ADJ_DELAY: int := 1
  /** Passes to move a T state across the device. */
  const MOVE_T_NONLOCAL_DELAY: int := 4
  /** Passes to measure and correct. */
  const MEASURE_AND_CORR_DELAY: int := 2
  /** Passes a rotation of a T patch takes. */
  const ROTATE_DELAY: int := 3
  /** Passes to reset a cultivator patch to |+> after it was crossed. */
  const RESET_PLUS_DELAY: int := 1
}
