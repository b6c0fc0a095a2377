/** Walking down a trie in memory by the bits of a size. */
module Descent {
  import opened TreeIndex
  import opened Memory
  import opened Trie
  import opened TreeLinks

  /** cur is a subtree of root. */
  ghost predicate Within(root: Tree, cur: Tree) {
    Distinct(cur) && forall a | Has(cur, a) :: Has(root, a) && SizeOf(root, a) == SizeOf(cur, a)
  }

  lemma WithinChild(root: Tree, cur: Tree)
    requires cur.Node? && Within(root, cur)
    ensures Within(root, cur.left) && Within(root, cur.right)
  {
    DistinctParts(cur);
    RingMembers(cur);
  }

  lemma WithinTop(root: Tree, cur: Tree)
    requires cur.Node? && cur.ring != [] && Within(root, cur)
    ensures Has(root, Addr(cur)) && SizeOf(root, Addr(cur)) == cur.size
  {
    RingMembers(cur);
  }

  /** Size s lies in the interval of cur, and key holds the bits of s still to be tested, topmost first. */
  ghost predicate OnPath(cur: Tree, lo: nat, w: nat, s: nat, key: nat) {
    && w <= 64 && lo % Pow2(w) == 0 && lo <= s < lo + Pow2(w)
    && Shape(cur, lo, w)
    && key == s * Pow2(64 - w) % Pow2(64)
  }

  /** The child that the top bit of key selects. */
  function ChildAt(key: nat): int {
    if key / Pow2(63) % 2 == 1 then CHILD1 else CHILD0
  }

  lemma PathBit(cur: Tree, lo: nat, w: nat, s: nat, key: nat)
    requires cur.Node? && OnPath(cur, lo, w, s, key) && w > 0
    ensures ChildAt(key) == if s < lo + Pow2(w - 1) then CHILD0 else CHILD1
    ensures s < lo + Pow2(w - 1) ==> OnPath(cur.left, lo, w - 1, s, key * 2 % Pow2(64))
    ensures s >= lo + Pow2(w - 1) ==> OnPath(cur.right, lo + Pow2(w - 1), w - 1, s, key * 2 % Pow2(64))
  {
    TopBit(s, lo, w, key);
    HalvesAligned(lo, w);
  }

  /** A node of another size has bits left to test. */
  lemma PathOpen(cur: Tree, lo: nat, w: nat, s: nat, key: nat)
    requires cur.Node? && OnPath(cur, lo, w, s, key) && cur.size != s
    ensures w > 0
  {
  }
}
