/**
 What is known of a list from how it was made.  Literals and what concat makes of
 them are whole; a slice may be cut, and a cut list can have a tree that is too
 small for concat.
 */
module ListHistory {
  import opened Seqs
  import opened Nodes

  /** Whether a list of n elements can safely be followed by one of k elements, as
      far as is known. */
  predicate JoinSafe(n: nat, cut: bool, k: nat) {
    n == 0 || k == 0 || !cut || (n > BRANCHING && k > BRANCHING)
  }

  /** Whether the concat of the two may be cut. */
  predicate JoinCut(n: nat, cut: bool, k: nat, cut': bool) {
    (n > 0 && cut) || (k > 0 && cut')
  }

  /** Whether the slice of a list of n elements may be cut: not where the list has
      no tree, nor where it is the front of a whole list with more than 32 elements. */
  predicate SliceCut(n: nat, cut: bool, from: nat, to: nat) {
    from < Min(to, n) && (cut || (n > BRANCHING && (from > 0 || to <= BRANCHING)))
  }
}
