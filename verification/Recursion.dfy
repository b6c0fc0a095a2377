/** When `match` meets the limit of its recursion. */
module Recursion {
  import opened Patterns

  /** With d levels left, calling `match` on the pattern from p on, at s, meets the limit before it finds a match or
      another error. */
  ghost predicate Enters(src: string, pat: string, s: nat, p: nat, caps: seq<Capture>, d: nat)
    requires s <= |src| && p <= |pat|
    decreases |pat| - p + 1, 0, 0
  {
    d == 0 || Deep(src, pat, s, p, caps, d - 1)
  }

  /** The same for going on with the pattern from p on, with d levels left below. */
  ghost predicate Deep(src: string, pat: string, s: nat, p: nat, caps: seq<Capture>, d: nat)
    requires s <= |src| && p <= |pat|
    decreases |pat| - p, 3, 0
  {
    DeepItem(src, pat, s, ItemAt(pat, p), caps, d)
  }

  ghost predicate DeepItem(src: string, pat: string, s: nat, item: Item, caps: seq<Capture>, d: nat)
    requires s <= |src| && (Continues(item) ==> item.next <= |pat|) && (item.Chars? ==> item.ep > 0) &&
      (item.Frontier? ==> item.next > 0)
    decreases if Continues(item) then |pat| - item.next + 1 else 0, 2, 0
  {
    match item
    case Finish => false
    case Anchor => false
    case Broken(_) => false
    case Open(what, next) =>
      |caps| < MAX_CAPTURES && Enters(src, pat, s, next, caps + [Capture(s, what)], d)
    case Close(next) =>
      var l := OpenCapture(caps);
      l >= 0 && Enters(src, pat, s, next, caps[l := Capture(caps[l].init, s - caps[l].init)], d)
    case Balance(open, close, next) =>
      var e := if At(src, s) == open then BalanceEnd(src, s + 1, open, close, 1) else -1;
      e >= 0 && Deep(src, pat, e, next, caps, d)
    case Frontier(q, next) =>
      && !InSet(if s == 0 then '\0' else src[s - 1], pat, q, next - 1) && InSet(At(src, s), pat, q, next - 1)
      && Deep(src, pat, s, next, caps, d)
    case Back(digit, next) =>
      Known(caps, digit) &&
      var c := caps[digit as int - '1' as int];
      Repeats(src, s, c) && Deep(src, pat, s + c.len, next, caps, d)
    case Chars(q, ep, repeat, next) =>
      var m := Fits(src, s, pat, q, ep);
      match repeat {
        case Once => m && Deep(src, pat, s + 1, next, caps, d)
        case AtMostOnce =>
          || (m && Enters(src, pat, s + 1, next, caps, d))
          || ((m ==> Outcomes(src, pat, s + 1, next, caps) == []) && Deep(src, pat, s, next, caps, d))
        case Greedy => DeepLongest(src, pat, s, Run(src, s, pat, q, ep), next, caps, d)
        case GreedyOne => m && DeepLongest(src, pat, s + 1, Run(src, s + 1, pat, q, ep), next, caps, d)
        case Lazy => DeepShortest(src, pat, s, Run(src, s, pat, q, ep), next, caps, d)
      }
  }

  ghost predicate DeepLongest(src: string, pat: string, s: nat, n: nat, next: nat, caps: seq<Capture>, d: nat)
    requires s + n <= |src| && next <= |pat|
    decreases |pat| - next + 1, 1, n
  {
    || Enters(src, pat, s + n, next, caps, d)
    || (Outcomes(src, pat, s + n, next, caps) == [] && n > 0 && DeepLongest(src, pat, s, n - 1, next, caps, d))
  }

  ghost predicate DeepShortest(src: string, pat: string, s: nat, n: nat, next: nat, caps: seq<Capture>, d: nat)
    requires s + n <= |src| && next <= |pat|
    decreases |pat| - next + 1, 1, n
  {
    || Enters(src, pat, s, next, caps, d)
    || (Outcomes(src, pat, s, next, caps) == [] && n > 0 && DeepShortest(src, pat, s + 1, n - 1, next, caps, d))
  }

  /** The items from p on for which `match` calls itself: parentheses, and single characters with a suffix. */
  function Nesting(pat: string, p: nat): (n: nat)
    requires p <= |pat|
    ensures n <= |pat| - p
    decreases |pat| - p
  {
    var i := ItemAt(pat, p);
    if !Continues(i) then 0
    else (if i.Open? || i.Close? || (i.Chars? && !i.repeat.Once?) then 1 else 0) + Nesting(pat, i.next)
  }

  lemma NotEnters(src: string, pat: string, s: nat, p: nat, caps: seq<Capture>, d: nat)
    requires s <= |src| && p <= |pat| && d > 0 && !Deep(src, pat, s, p, caps, d - 1)
    ensures !Enters(src, pat, s, p, caps, d)
  {
  }

  /** The limit is not met when there are at least as many levels as such items. */
  lemma {:induction false} NestingSuffices(src: string, pat: string, s: nat, p: nat, caps: seq<Capture>, d: nat)
    requires s <= |src| && p <= |pat| && Nesting(pat, p) <= d
    ensures !Deep(src, pat, s, p, caps, d)
    decreases |pat| - p
  {
    hide Outcomes, ItemAt, Run, Single, InSet, BalanceEnd, OpenCapture, Enters, DeepLongest, DeepShortest;
    var i := ItemAt(pat, p);
    if Continues(i) {
      forall z: nat, c: seq<Capture> | z <= |src|
        ensures !Deep(src, pat, z, i.next, c, d)
        ensures d > 0 && Nesting(pat, i.next) < d ==> !Enters(src, pat, z, i.next, c, d)
      {
        NestingSuffices(src, pat, z, i.next, c, d);
        if Nesting(pat, i.next) < d {
          NestingSuffices(src, pat, z, i.next, c, d - 1);
          NotEnters(src, pat, z, i.next, c, d);
        }
      }
      if i.Chars? && !i.repeat.Once? {
        NoneDeep(src, pat, s, Run(src, s, pat, i.p, i.ep), i.next, caps, d);
        if Fits(src, s, pat, i.p, i.ep) {
          NoneDeep(src, pat, s + 1, Run(src, s + 1, pat, i.p, i.ep), i.next, caps, d);
        }
      }
      assert !DeepItem(src, pat, s, i, caps, d);
    }
  }

  /** Repetition meets the limit only where the rest of the pattern does. */
  lemma {:induction false} NoneDeep(src: string, pat: string, s: nat, n: nat, next: nat, caps: seq<Capture>, d: nat)
    requires s + n <= |src| && next <= |pat|
    requires forall z: nat | z <= |src| :: !Enters(src, pat, z, next, caps, d)
    ensures !DeepLongest(src, pat, s, n, next, caps, d) && !DeepShortest(src, pat, s, n, next, caps, d)
    decreases n
  {
    hide Outcomes, Enters;
    if n > 0 {
      NoneDeep(src, pat, s, n - 1, next, caps, d);
      NoneDeep(src, pat, s + 1, n - 1, next, caps, d);
    }
  }

  // ----- a pattern that needs every level -----

  /** The pattern is x? n times, and the subject is x n times. */
  ghost predicate Chain(src: string, pat: string, n: nat) {
    && |src| == n && |pat| == 2 * n && (forall k | 0 <= k < n :: src[k] == 'x')
    && forall k | 0 <= k < n :: pat[2 * k] == 'x' && pat[2 * k + 1] == '?'
  }

  lemma ChainItem(src: string, pat: string, n: nat, i: nat)
    requires Chain(src, pat, n) && i < n
    ensures ItemAt(pat, 2 * i) == Chars(2 * i, 2 * i + 1, AtMostOnce, 2 * i + 2)
    ensures Fits(src, i, pat, 2 * i, 2 * i + 1)
  {
    assert pat[2 * i] == 'x' && pat[2 * i + 1] == '?';
  }

  lemma ChainEnd(src: string, pat: string, n: nat)
    requires Chain(src, pat, n)
    ensures ItemAt(pat, 2 * n) == Finish
  {
  }

  lemma {:induction false} ChainMatches(src: string, pat: string, n: nat, s: nat, i: nat)
    requires Chain(src, pat, n) && s <= n && i <= n
    ensures Outcomes(src, pat, s, 2 * i, []) != []
    decreases n - i
  {
    hide Chain, ItemAt;
    ChainEnd(src, pat, n);
    if i < n {
      ChainItem(src, pat, n, i);
      ChainMatches(src, pat, n, s, i + 1);
    }
  }

  lemma {:induction false} ChainDeep(src: string, pat: string, n: nat, i: nat, d: nat)
    requires Chain(src, pat, n) && i <= n
    ensures Deep(src, pat, i, 2 * i, [], d) <==> n - i > d
    decreases n - i
  {
    hide Chain, ItemAt, Outcomes, Fits;
    ChainEnd(src, pat, n);
    if i < n {
      ChainItem(src, pat, n, i);
      ChainMatches(src, pat, n, i + 1, i + 1);
      var next := 2 * (i + 1);
      assert next == 2 * i + 2;
      if d > 0 {
        ChainDeep(src, pat, n, i + 1, d - 1);
      }
      assert Enters(src, pat, i + 1, next, [], d) <==> d == 0 || Deep(src, pat, i + 1, next, [], d - 1);
      assert DeepItem(src, pat, i, ItemAt(pat, 2 * i), [], d) <==> Enters(src, pat, i + 1, next, [], d);
    }
  }

  /** The limit is met by exactly those of these patterns that have as many items as there are levels. */
  lemma LimitExact(src: string, pat: string, n: nat)
    requires Chain(src, pat, n)
    ensures Enters(src, pat, 0, 0, [], MAX_XLEVEL) <==> n >= MAX_XLEVEL
  {
    hide Chain, Deep;
    ChainDeep(src, pat, n, 0, MAX_XLEVEL - 1);
  }
}
