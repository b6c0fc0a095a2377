/** Patterns without captures, balanced strings and frontiers as regular expressions: which texts they match, and which
    end is found first. */
module PatternLanguage {
  import opened Patterns

  /** From p on, the pattern is a sequence of single-character items, each perhaps repeated. */
  ghost predicate Simple(pat: string, p: nat)
    requires p <= |pat|
    decreases |pat| - p
  {
    var i := ItemAt(pat, p);
    i.Finish? || (i.Chars? && Simple(pat, i.next))
  }

  ghost function Items(pat: string, p: nat): (r: seq<Item>)
    requires p <= |pat| && Simple(pat, p)
    ensures forall i | i in r :: i.Chars? && i.ep > 0
    decreases |pat| - p
  {
    var i := ItemAt(pat, p);
    if i.Finish? then [] else [i] + Items(pat, i.next)
  }

  /** How often a repeated item may occur. */
  predicate Times(r: Repeat, n: nat) {
    match r
    case Once => n == 1
    case AtMostOnce => n <= 1
    case Greedy => true
    case GreedyOne => n >= 1
    case Lazy => true
  }

  ghost predicate AllFit(pat: string, i: Item, w: string)
    requires i.Chars? && i.ep > 0
  {
    forall k | 0 <= k < |w| :: Single(w[k], pat, i.p, i.ep)
  }

  /** The text w belongs to the language of the items. */
  ghost predicate Lang(pat: string, items: seq<Item>, w: string)
    requires forall i | i in items :: i.Chars? && i.ep > 0
  {
    if items == [] then w == ""
    else exists n :: 0 <= n <= |w| && Takes(pat, items[0], w, n) && Lang(pat, items[1..], w[n..])
  }

  /** The first n characters of w are n occurrences of the item, and it may occur so often. */
  ghost predicate Takes(pat: string, i: Item, w: string, n: nat)
    requires i.Chars? && i.ep > 0
  {
    n <= |w| && Times(i.repeat, n) && AllFit(pat, i, w[..n])
  }

  // ----- the ways to match one item -----

  /** x is an outcome of the rest of the pattern somewhere between lo and hi. */
  ghost predicate Somewhere(src: string, pat: string, lo: nat, hi: nat, next: nat, caps: seq<Capture>, x: Leaf)
    requires hi <= |src| && next <= |pat|
  {
    exists e :: lo <= e <= hi && x in Outcomes(src, pat, e, next, caps)
  }

  lemma SomewhereSplit(src: string, pat: string, lo: nat, hi: nat, next: nat, caps: seq<Capture>, x: Leaf)
    requires lo <= hi <= |src| && next <= |pat|
    ensures Somewhere(src, pat, lo, hi, next, caps, x) <==>
      x in Outcomes(src, pat, lo, next, caps) || Somewhere(src, pat, lo + 1, hi, next, caps, x)
    ensures hi > 0 ==> (Somewhere(src, pat, lo, hi, next, caps, x) <==>
      x in Outcomes(src, pat, hi, next, caps) || Somewhere(src, pat, lo, hi - 1, next, caps, x))
  {
    hide Outcomes;
    if e :| lo <= e <= hi && x in Outcomes(src, pat, e, next, caps) {
      assert e == lo || lo + 1 <= e <= hi;
      assert e == hi || lo <= e <= hi - 1;
    }
  }

  lemma OnlyHere(src: string, pat: string, s: nat, next: nat, caps: seq<Capture>, x: Leaf)
    requires s <= |src| && next <= |pat|
    ensures Somewhere(src, pat, s, s, next, caps, x) <==> x in Outcomes(src, pat, s, next, caps)
  {
    hide Outcomes;
  }

  /** One step of the two orders. */
  lemma RepeatMembers(src: string, pat: string, s: nat, n: nat, next: nat, caps: seq<Capture>, x: Leaf)
    requires s + n <= |src| && next <= |pat|
    ensures x in Longest(src, pat, s, n, next, caps) <==>
      x in Outcomes(src, pat, s + n, next, caps) || (n > 0 && x in Longest(src, pat, s, n - 1, next, caps))
    ensures x in Shortest(src, pat, s, n, next, caps) <==>
      x in Outcomes(src, pat, s, next, caps) || (n > 0 && x in Shortest(src, pat, s + 1, n - 1, next, caps))
  {
    hide Outcomes;
  }

  lemma {:induction false} LongestAll(src: string, pat: string, s: nat, n: nat, next: nat, caps: seq<Capture>, x: Leaf)
    requires s + n <= |src| && next <= |pat|
    ensures x in Longest(src, pat, s, n, next, caps) <==> Somewhere(src, pat, s, s + n, next, caps, x)
    decreases n
  {
    hide Outcomes, Longest, Shortest, Somewhere;
    RepeatMembers(src, pat, s, n, next, caps, x);
    if n == 0 {
      OnlyHere(src, pat, s, next, caps, x);
    } else {
      SomewhereSplit(src, pat, s, s + n, next, caps, x);
      LongestAll(src, pat, s, n - 1, next, caps, x);
    }
  }

  lemma {:induction false} ShortestAll(src: string, pat: string, s: nat, n: nat, next: nat, caps: seq<Capture>, x: Leaf)
    requires s + n <= |src| && next <= |pat|
    ensures x in Shortest(src, pat, s, n, next, caps) <==> Somewhere(src, pat, s, s + n, next, caps, x)
    decreases n
  {
    hide Outcomes, Longest, Shortest, Somewhere;
    RepeatMembers(src, pat, s, n, next, caps, x);
    if n == 0 {
      OnlyHere(src, pat, s, next, caps, x);
    } else {
      SomewhereSplit(src, pat, s, s + n, next, caps, x);
      ShortestAll(src, pat, s + 1, n - 1, next, caps, x);
    }
  }

  /** The characters from s to e fit the item, and it may occur so often. */
  ghost predicate TakesAt(src: string, pat: string, s: nat, i: Item, e: nat)
    requires i.Chars? && i.ep > 0
  {
    s <= e <= |src| && Times(i.repeat, e - s) && FitsAll(src, pat, s, i, e)
  }

  ghost predicate FitsAll(src: string, pat: string, s: nat, i: Item, e: nat)
    requires i.Chars? && i.ep > 0
  {
    forall k | s <= k < e :: Fits(src, k, pat, i.p, i.ep)
  }

  lemma ItemRange(src: string, pat: string, s: nat, i: Item, lo: nat, hi: nat, caps: seq<Capture>, x: Leaf)
    requires i.Chars? && i.ep > 0 && i.next <= |pat| && hi <= |src|
    requires forall e: nat :: TakesAt(src, pat, s, i, e) <==> lo <= e <= hi
    ensures Somewhere(src, pat, lo, hi, i.next, caps, x) <==>
      exists e: nat :: TakesAt(src, pat, s, i, e) && x in Outcomes(src, pat, e, i.next, caps)
  {
    hide Outcomes, TakesAt;
    if e: nat :| TakesAt(src, pat, s, i, e) && x in Outcomes(src, pat, e, i.next, caps) {
      assert lo <= e <= hi;
    }
    if e :| lo <= e <= hi && x in Outcomes(src, pat, e, i.next, caps) {
      assert TakesAt(src, pat, s, i, e);
    }
  }

  /** The outcomes at an item are those of the rest, after any number of characters that it may take. */
  lemma ItemOutcomes(src: string, pat: string, s: nat, i: Item, caps: seq<Capture>, x: Leaf)
    requires s <= |src| && i.Chars? && i.ep > 0 && i.next <= |pat|
    ensures x in Step(src, pat, s, i, caps) <==>
      exists e: nat :: TakesAt(src, pat, s, i, e) && x in Outcomes(src, pat, e, i.next, caps)
  {
    hide Outcomes, Single, Run, Longest, Shortest, FitsAll, Fits, TakesAt, Somewhere;
    var m := Fits(src, s, pat, i.p, i.ep);
    var r := Run(src, s, pat, i.p, i.ep);
    FirstFits(src, pat, s, i);
    ItemTakes(src, pat, s, i);
    match i.repeat
    case Once =>
      if m {
        ItemRange(src, pat, s, i, s + 1, s + 1, caps, x);
        OnlyHere(src, pat, s + 1, i.next, caps, x);
      }
    case AtMostOnce =>
      ItemRange(src, pat, s, i, s, if m then s + 1 else s, caps, x);
      OnlyHere(src, pat, s, i.next, caps, x);
      if m {
        SomewhereSplit(src, pat, s, s + 1, i.next, caps, x);
      }
    case Greedy =>
      ItemRange(src, pat, s, i, s, s + r, caps, x);
      LongestAll(src, pat, s, r, i.next, caps, x);
    case GreedyOne =>
      if m {
        var q := Run(src, s + 1, pat, i.p, i.ep);
        ItemRange(src, pat, s, i, s + 1, s + 1 + q, caps, x);
        LongestAll(src, pat, s + 1, q, i.next, caps, x);
      }
    case Lazy =>
      ItemRange(src, pat, s, i, s, s + r, caps, x);
      ShortestAll(src, pat, s, r, i.next, caps, x);
  }

  /** How far an item may go. */
  lemma ItemTakes(src: string, pat: string, s: nat, i: Item)
    requires s <= |src| && i.Chars? && i.ep > 0
    ensures var m := Fits(src, s, pat, i.p, i.ep);
      forall e: nat :: TakesAt(src, pat, s, i, e) <==>
        match i.repeat
        case Once => m && e == s + 1
        case AtMostOnce => e == s || (m && e == s + 1)
        case Greedy => s <= e <= s + Run(src, s, pat, i.p, i.ep)
        case GreedyOne => m && s + 1 <= e <= s + 1 + Run(src, s + 1, pat, i.p, i.ep)
        case Lazy => s <= e <= s + Run(src, s, pat, i.p, i.ep)
  {
    hide Single, Run, FitsAll, Fits;
    RunIsMost(src, s, pat, i);
    FirstFits(src, pat, s, i);
    if Fits(src, s, pat, i.p, i.ep) {
      RunIsMost(src, s + 1, pat, i);
    }
  }

  /** A run may take any number of characters up to its length, and no more. */
  lemma RunIsMost(src: string, s: nat, pat: string, i: Item)
    requires s <= |src| && i.Chars? && i.ep > 0
    ensures var r := Run(src, s, pat, i.p, i.ep);
      forall e: nat | s <= e <= |src| :: FitsAll(src, pat, s, i, e) <==> e <= s + r
  {
    hide Single, Run;
    var r := Run(src, s, pat, i.p, i.ep);
    forall e: nat | s + r < e <= |src|
      ensures !FitsAll(src, pat, s, i, e)
    {
      assert !Fits(src, s + r, pat, i.p, i.ep);
    }
  }

  lemma FirstFits(src: string, pat: string, s: nat, i: Item)
    requires s <= |src| && i.Chars? && i.ep > 0
    ensures Fits(src, s, pat, i.p, i.ep) ==> s < |src|
    ensures FitsAll(src, pat, s, i, s)
    ensures forall e: nat | s < e <= |src| ::
        FitsAll(src, pat, s, i, e) <==> Fits(src, s, pat, i.p, i.ep) && FitsAll(src, pat, s + 1, i, e)
    ensures s < |src| ==> FitsAll(src, pat, s + 1, i, s + 1)
  {
    hide Single;
  }

  // ----- the language -----

  /** A simple pattern reaches an end if and only if the text up to there is in its language. */
  lemma {:induction false} EndsInLanguage(src: string, pat: string, s: nat, p: nat, caps: seq<Capture>, x: Leaf)
    requires s <= |src| && p <= |pat| && Simple(pat, p)
    ensures x in Outcomes(src, pat, s, p, caps) <==>
      x.End? && x.caps == caps && s <= x.end <= |src| && Lang(pat, Items(pat, p), src[s..x.end])
    decreases |pat| - p
  {
    hide Step, ItemAt, Single, Lang, TakesAt;
    var i := ItemAt(pat, p);
    if i.Finish? {
      FinishLang(src, pat, s, caps, x);
    } else {
      ItemOutcomes(src, pat, s, i, caps, x);
      forall e: nat | TakesAt(src, pat, s, i, e)
        ensures e <= |src| && (x in Outcomes(src, pat, e, i.next, caps) <==>
          x.End? && x.caps == caps && e <= x.end <= |src| && Lang(pat, Items(pat, i.next), src[e..x.end]))
      {
        TakesBound(src, pat, s, i, e);
        EndsInLanguage(src, pat, e, i.next, caps, x);
      }
      if x.End? && s <= x.end <= |src| {
        LangStep(src, pat, s, p, x.end);
      }
      SimpleNext(pat, p);
      if e: nat :| TakesAt(src, pat, s, i, e) && x in Outcomes(src, pat, e, i.next, caps) {
        TakesBound(src, pat, s, i, e);
      }
    }
  }

  lemma SimpleNext(pat: string, p: nat)
    requires p <= |pat| && Simple(pat, p) && !ItemAt(pat, p).Finish?
    ensures var i := ItemAt(pat, p); i.Chars? && p < i.next <= |pat| && i.ep > 0 && Simple(pat, i.next)
  {
  }

  lemma FinishLang(src: string, pat: string, s: nat, caps: seq<Capture>, x: Leaf)
    requires s <= |src|
    ensures Step(src, pat, s, Finish, caps) == [End(s, caps)]
    ensures x == End(s, caps) <==> x.End? && x.caps == caps && s <= x.end <= |src| && Lang(pat, [], src[s..x.end])
  {
  }

  lemma TakesBound(src: string, pat: string, s: nat, i: Item, e: nat)
    requires i.Chars? && i.ep > 0 && TakesAt(src, pat, s, i, e)
    ensures s <= e <= |src|
  {
  }

  lemma LangStep(src: string, pat: string, s: nat, p: nat, end: nat)
    requires s <= end <= |src| && p <= |pat| && Simple(pat, p) && ItemAt(pat, p).Chars?
    ensures var i := ItemAt(pat, p);
      Lang(pat, Items(pat, p), src[s..end]) <==>
      exists e: nat :: TakesAt(src, pat, s, i, e) && e <= end && Lang(pat, Items(pat, i.next), src[e..end])
  {
    hide ItemAt, Single, TakesAt, Takes;
    var i := ItemAt(pat, p);
    var items, w := Items(pat, p), src[s..end];
    assert items[0] == i && items[1..] == Items(pat, i.next);
    forall n: nat | n <= |w|
      ensures w[n..] == src[s + n..end] && (TakesAt(src, pat, s, i, s + n) <==> Takes(pat, i, w, n))
    {
      TakesBoth(src, pat, s, i, n, end);
    }
    if e: nat :| TakesAt(src, pat, s, i, e) && e <= end && Lang(pat, Items(pat, i.next), src[e..end]) {
      TakesBound(src, pat, s, i, e);
      assert TakesAt(src, pat, s, i, s + (e - s)) && Takes(pat, i, w, e - s) && w[e - s..] == src[e..end];
    }
  }

  lemma TakesBoth(src: string, pat: string, s: nat, i: Item, n: nat, e: nat)
    requires i.Chars? && i.ep > 0 && s + n <= e <= |src|
    ensures TakesAt(src, pat, s, i, s + n) <==> Takes(pat, i, src[s..e], n)
  {
    hide Single;
    var w := src[s..e];
    assert forall k | 0 <= k < n :: w[..n][k] == src[s + k];
    if Takes(pat, i, w, n) {
      forall k | s <= k < s + n
        ensures Fits(src, k, pat, i.p, i.ep)
      {
        assert Single(w[..n][k - s], pat, i.p, i.ep);
      }
    }
    if TakesAt(src, pat, s, i, s + n) {
      forall k | 0 <= k < n
        ensures Single(w[..n][k], pat, i.p, i.ep)
      {
        assert Fits(src, s + k, pat, i.p, i.ep);
      }
    }
  }

  // ----- the order -----

  /** Greedy repetition: the first outcome comes after the most characters after which the rest can match at all. */
  lemma {:induction false} LongestFirst(src: string, pat: string, s: nat, n: nat, next: nat, caps: seq<Capture>)
    returns (e: nat)
    requires s + n <= |src| && next <= |pat| && Longest(src, pat, s, n, next, caps) != []
    ensures s <= e <= s + n && Outcomes(src, pat, e, next, caps) != []
    ensures Longest(src, pat, s, n, next, caps)[0] == Outcomes(src, pat, e, next, caps)[0]
    ensures forall j | e < j <= s + n :: Outcomes(src, pat, j, next, caps) == []
    decreases n
  {
    hide Outcomes;
    if Outcomes(src, pat, s + n, next, caps) != [] {
      e := s + n;
    } else {
      e := LongestFirst(src, pat, s, n - 1, next, caps);
    }
  }

  /** Lazy repetition: the first outcome comes after the fewest. */
  lemma {:induction false} ShortestFirst(src: string, pat: string, s: nat, n: nat, next: nat, caps: seq<Capture>)
    returns (e: nat)
    requires s + n <= |src| && next <= |pat| && Shortest(src, pat, s, n, next, caps) != []
    ensures s <= e <= s + n && Outcomes(src, pat, e, next, caps) != []
    ensures Shortest(src, pat, s, n, next, caps)[0] == Outcomes(src, pat, e, next, caps)[0]
    ensures forall j | s <= j < e :: Outcomes(src, pat, j, next, caps) == []
    decreases n
  {
    hide Outcomes;
    if Outcomes(src, pat, s, next, caps) != [] {
      e := s;
    } else {
      e := ShortestFirst(src, pat, s + 1, n - 1, next, caps);
    }
  }
}
