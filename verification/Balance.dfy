/** What `%b` matches, by counting. */
module Balance {
  import opened Patterns

  /** How many more opening than closing characters there are from s up to i. */
  function Depth(src: string, s: nat, i: nat, open: char, close: char): int
    requires s <= i <= |src|
  {
    if i == s then 0
    else
      Depth(src, s, i - 1, open, close) + (if src[i - 1] == open then 1 else 0) - (if src[i - 1] == close then 1 else 0)
  }

  /** From s to e there are as many closing as opening characters, and e is the first such place behind s. */
  ghost predicate FirstLevel(src: string, s: nat, e: nat, open: char, close: char) {
    s < e <= |src| && Depth(src, s, e, open, close) == 0 && forall k | s < k < e :: Depth(src, s, k, open, close) != 0
  }

  /** The next occurrence behind s ends at e. */
  ghost predicate NextBehind(src: string, s: nat, e: nat, c: char) {
    s + 1 < e <= |src| && src[e - 1] == c && forall k | s < k < e - 1 :: src[k] != c
  }

  /** The text from s to e is balanced. */
  ghost predicate Balanced(src: string, s: nat, e: nat, open: char, close: char) {
    && s < |src| && src[s] == open
    && if open == close then NextBehind(src, s, e, close) else FirstLevel(src, s, e, open, close)
  }

  lemma {:induction false} BalanceFound(src: string, s: nat, i: nat, open: char, close: char, cont: nat)
    requires s < i <= |src| && open != close && cont >= 1 && Depth(src, s, i, open, close) == cont
    requires forall k | s < k <= i :: Depth(src, s, k, open, close) != 0
    ensures var e := BalanceEnd(src, i, open, close, cont);
      if e < 0 then forall k | s < k <= |src| :: Depth(src, s, k, open, close) != 0
      else FirstLevel(src, s, e, open, close)
    decreases |src| - i
  {
    hide Depth;
    if i < |src| {
      DepthNext(src, s, i, open, close);
      if src[i] != close {
        BalanceFound(src, s, i + 1, open, close, if src[i] == open then cont + 1 else cont);
      } else if cont > 1 {
        BalanceFound(src, s, i + 1, open, close, cont - 1);
      }
    }
  }

  lemma DepthNext(src: string, s: nat, i: nat, open: char, close: char)
    requires s <= i < |src|
    ensures Depth(src, s, i + 1, open, close) ==
      Depth(src, s, i, open, close) + (if src[i] == open then 1 else 0) - (if src[i] == close then 1 else 0)
    ensures Depth(src, s, s, open, close) == 0
  {
  }

  lemma {:induction false} NextFound(src: string, s: nat, i: nat, c: char)
    requires s < i <= |src| && forall k | s < k < i :: src[k] != c
    ensures var e := BalanceEnd(src, i, c, c, 1);
      if e < 0 then forall k | s < k < |src| :: src[k] != c else NextBehind(src, s, e, c)
    decreases |src| - i
  {
    if i < |src| && src[i] != c {
      NextFound(src, s, i + 1, c);
    }
  }

  /** The place that matching finds is the end of the balanced text at s, and none is found exactly if there is none. */
  lemma BalanceMeans(src: string, s: nat, open: char, close: char)
    requires open != '\0'
    ensures var e := if At(src, s) == open then BalanceEnd(src, s + 1, open, close, 1) else -1;
      if e < 0 then forall k: nat :: !Balanced(src, s, k, open, close) else Balanced(src, s, e, open, close)
  {
    hide BalanceEnd;
    if At(src, s) == open {
      if open == close {
        NextFound(src, s, s + 1, open);
      } else {
        DepthNext(src, s, s, open, close);
        BalanceFound(src, s, s + 1, open, close, 1);
      }
    }
  }

  lemma BalancedOnce(src: string, s: nat, e: nat, f: nat, open: char, close: char)
    requires Balanced(src, s, e, open, close) && Balanced(src, s, f, open, close)
    ensures e == f
  {
    hide Depth;
  }
}
