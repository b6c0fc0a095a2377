/** What patterns match, said without backtracking: which texts an item passes, which ends and errors can be reached,
    and which of them comes first. */
module PatternMeaning {
  import opened Balance
  import opened PatternLanguage
  import opened Patterns

  /** The capture that was opened last of those still open. */
  ghost predicate LastOpen(caps: seq<Capture>, l: nat) {
    l < |caps| && caps[l].len == CAP_UNFINISHED && forall k | l < k < |caps| :: caps[k].len != CAP_UNFINISHED
  }

  /** The text from s to m repeats the capture. */
  predicate RepeatsTo(src: string, s: nat, m: nat, c: Capture) {
    && c.len >= 0 && c.init + c.len <= |src| && s <= m <= |src|
    && src[s..m] == src[c.init..c.init + c.len]
  }

  /** The error that an item raises wherever it is reached with these captures. */
  ghost predicate Raises(i: Item, caps: seq<Capture>, e: MatchError) {
    match i
    case Broken(err) => e == err
    case Open(_, _) => |caps| >= MAX_CAPTURES && e == TooManyCaptures
    case Close(_) => (forall l: nat :: !LastOpen(caps, l)) && e == InvalidCapture
    case Back(digit, _) => !Known(caps, digit) && e == InvalidCaptureIndex
    case _ => false
  }

  /** An item gets from s to m, and from the captures caps to now. */
  ghost predicate Passes(src: string, pat: string, s: nat, i: Item, caps: seq<Capture>, m: nat, now: seq<Capture>)
    requires Continues(i) && i.next <= |pat| && (i.Chars? ==> i.ep > 0) && (i.Frontier? ==> i.next > 0) && s <= |src|
  {
    match i
    case Open(what, _) => |caps| < MAX_CAPTURES && m == s && now == caps + [Capture(s, what)]
    case Close(_) =>
      exists l: nat :: LastOpen(caps, l) && m == s && now == caps[l := Capture(caps[l].init, s - caps[l].init)]
    case Balance(open, close, _) => Balanced(src, s, m, open, close) && now == caps
    case Frontier(q, next) =>
      && !InSet(if s == 0 then '\0' else src[s - 1], pat, q, next - 1) && InSet(At(src, s), pat, q, next - 1)
      && m == s && now == caps
    case Back(digit, _) =>
      Known(caps, digit) && RepeatsTo(src, s, m, caps[digit as int - '1' as int]) && now == caps
    case Chars(_, _, _, _) => TakesAt(src, pat, s, i, m) && now == caps
  }

  /** An item as `ItemAt` gives it, for a pattern pat. */
  predicate Sane(pat: string, i: Item) {
    && (Continues(i) ==> i.next <= |pat|) && (i.Chars? ==> i.ep > 0) && (i.Frontier? ==> i.next > 0)
    && (i.Balance? ==> i.open != '\0')
  }

  lemma ItemsSane(pat: string, p: nat)
    ensures Sane(pat, ItemAt(pat, p)) && (Continues(ItemAt(pat, p)) ==> p < ItemAt(pat, p).next)
  {
    hide CharsAt, ClassEnd;
  }

  /** The end or error x can be reached from s on by the pattern from p on. */
  ghost predicate Reaches(src: string, pat: string, s: nat, p: nat, caps: seq<Capture>, x: Leaf)
    requires s <= |src| && p <= |pat|
    decreases |pat| - p
  {
    var i := ItemAt(pat, p);
    ItemsSane(pat, p);
    || (x.Fault? && Raises(i, caps, x.error))
    || (i.Finish? && x == End(s, caps))
    || (i.Anchor? && s == |src| && x == End(s, caps))
    || (Continues(i) && exists m: nat, now: seq<Capture> ::
          Passes(src, pat, s, i, caps, m, now) && m <= |src| && Reaches(src, pat, m, i.next, now, x))
  }

  /** Nothing can be reached. */
  ghost predicate Stuck(src: string, pat: string, s: nat, p: nat, caps: seq<Capture>)
    requires s <= |src| && p <= |pat|
  {
    forall x: Leaf :: !Reaches(src, pat, s, p, caps, x)
  }

  lemma LastOpenIs(caps: seq<Capture>)
    ensures forall l: nat :: LastOpen(caps, l) <==> OpenCapture(caps) == l
  {
  }

  lemma RepeatsOnce(src: string, s: nat, c: Capture)
    ensures Repeats(src, s, c) ==> RepeatsTo(src, s, s + c.len, c)
    ensures forall m: nat | RepeatsTo(src, s, m, c) :: Repeats(src, s, c) && m == s + c.len
  {
    forall m: nat | RepeatsTo(src, s, m, c)
      ensures Repeats(src, s, c) && m == s + c.len
    {
      assert |src[s..m]| == c.len;
    }
  }

  /** An item that is no character passes in one way at most, and what follows are the outcomes of the rest. */
  lemma OnePass(src: string, pat: string, s: nat, i: Item, caps: seq<Capture>)
    returns (passes: bool, m: nat, now: seq<Capture>)
    requires s <= |src| && Sane(pat, i) && Continues(i) && !i.Chars?
    requires forall e: MatchError :: !Raises(i, caps, e)
    ensures m <= |src|
    ensures if passes then Passes(src, pat, s, i, caps, m, now) && Step(src, pat, s, i, caps) ==
        Outcomes(src, pat, m, i.next, now)
      else Step(src, pat, s, i, caps) == []
    ensures forall k: nat, c: seq<Capture> | Passes(src, pat, s, i, caps, k, c) :: passes && k == m && c == now
  {
    hide Outcomes, InSet, BalanceEnd, Balanced, LastOpen, RepeatsTo, Repeats;
    passes, m, now := true, s, caps;
    LastOpenIs(caps);
    match i
    case Open(what, _) =>
      assert !Raises(i, caps, TooManyCaptures);
      now := caps + [Capture(s, what)];
    case Close(_) =>
      assert !Raises(i, caps, InvalidCapture);
      var l := OpenCapture(caps);
      now := caps[l := Capture(caps[l].init, s - caps[l].init)];
    case Balance(open, close, _) =>
      BalanceMeans(src, s, open, close);
      var e := if At(src, s) == open then BalanceEnd(src, s + 1, open, close, 1) else -1;
      passes := e >= 0;
      if passes {
        m := e;
        BalancedInside(src, s, m, open, close);
      }
    case Frontier(q, next) =>
      passes :=
        !InSet(if s == 0 then '\0' else src[s - 1], pat, q, next - 1) && InSet(At(src, s), pat, q, next - 1);
    case Back(digit, _) =>
      assert !Raises(i, caps, InvalidCaptureIndex);
      var c := caps[digit as int - '1' as int];
      RepeatsOnce(src, s, c);
      passes := Repeats(src, s, c);
      if passes {
        m := s + c.len;
      }
  }

  lemma BalancedInside(src: string, s: nat, m: nat, open: char, close: char)
    requires Balanced(src, s, m, open, close)
    ensures m <= |src|
    ensures forall k: nat | Balanced(src, s, k, open, close) :: k == m
  {
    forall k: nat | Balanced(src, s, k, open, close)
      ensures k == m
    {
      BalancedOnce(src, s, k, m, open, close);
    }
  }

  /** Where an item raises an error, nothing else happens. */
  lemma RaisesAlone(src: string, pat: string, s: nat, i: Item, caps: seq<Capture>, e: MatchError)
    requires s <= |src| && Sane(pat, i) && Raises(i, caps, e)
    ensures Step(src, pat, s, i, caps) == [Fault(e)] && !i.Finish? && !i.Anchor?
    ensures forall f: MatchError | Raises(i, caps, f) :: f == e
    ensures Continues(i) ==>
      forall m: nat, now: seq<Capture> :: !Passes(src, pat, s, i, caps, m, now)
  {
    hide Outcomes, LastOpen, Balanced, RepeatsTo, TakesAt, InSet;
    LastOpenIs(caps);
    assert OpenCapture(caps) >= 0 ==> LastOpen(caps, OpenCapture(caps));
  }

  lemma Unfold(src: string, pat: string, s: nat, p: nat, caps: seq<Capture>)
    requires s <= |src| && p <= |pat|
    ensures Outcomes(src, pat, s, p, caps) == Step(src, pat, s, ItemAt(pat, p), caps)
  {
  }

  lemma EndStep(src: string, pat: string, s: nat, i: Item, caps: seq<Capture>)
    requires s <= |src| && Sane(pat, i) && !Continues(i) && !i.Broken?
    ensures Step(src, pat, s, i, caps) == if i.Finish? || s == |src| then [End(s, caps)] else []
    ensures forall e: MatchError :: !Raises(i, caps, e)
  {
  }

  /** For every pattern: matching tries exactly the ends and errors that can be reached. */
  lemma {:induction false} OutcomesReached(src: string, pat: string, s: nat, p: nat, caps: seq<Capture>, x: Leaf)
    requires s <= |src| && p <= |pat|
    ensures x in Outcomes(src, pat, s, p, caps) <==> Reaches(src, pat, s, p, caps, x)
    decreases |pat| - p
  {
    hide Outcomes, Step, ItemAt, Raises, Passes, TakesAt;
    var i := ItemAt(pat, p);
    ItemsSane(pat, p);
    Unfold(src, pat, s, p, caps);
    if e: MatchError :| Raises(i, caps, e) {
      RaisesAlone(src, pat, s, i, caps, e);
    } else if !Continues(i) {
      NotBroken(i, caps);
      EndStep(src, pat, s, i, caps);
    } else {
      forall m: nat, now: seq<Capture> | m <= |src|
        ensures x in Outcomes(src, pat, m, i.next, now) <==> Reaches(src, pat, m, i.next, now, x)
      {
        OutcomesReached(src, pat, m, i.next, now, x);
      }
      NextOutcomes(src, pat, s, i, caps, x);
    }
  }

  lemma NotBroken(i: Item, caps: seq<Capture>)
    requires forall e: MatchError :: !Raises(i, caps, e)
    ensures !i.Broken?
  {
    assert i.Broken? ==> Raises(i, caps, i.error);
  }

  lemma NextOutcomes(src: string, pat: string, s: nat, i: Item, caps: seq<Capture>, x: Leaf)
    requires s <= |src| && Sane(pat, i) && Continues(i)
    requires forall e: MatchError :: !Raises(i, caps, e)
    ensures x in Step(src, pat, s, i, caps) <==>
      exists m: nat, now: seq<Capture> ::
        Passes(src, pat, s, i, caps, m, now) && m <= |src| && x in Outcomes(src, pat, m, i.next, now)
  {
    hide Outcomes, Step, Raises, Passes, TakesAt;
    if i.Chars? {
      ItemOutcomes(src, pat, s, i, caps, x);
      forall m: nat | TakesAt(src, pat, s, i, m)
        ensures m <= |src| && Passes(src, pat, s, i, caps, m, caps)
      {
        CharsPass(src, pat, s, i, caps, m, caps);
      }
      forall m: nat, now: seq<Capture> | Passes(src, pat, s, i, caps, m, now)
        ensures TakesAt(src, pat, s, i, m) && now == caps
      {
        CharsPass(src, pat, s, i, caps, m, now);
      }
    } else {
      var passes, m, now := OnePass(src, pat, s, i, caps);
    }
  }

  lemma CharsPass(src: string, pat: string, s: nat, i: Item, caps: seq<Capture>, m: nat, now: seq<Capture>)
    requires s <= |src| && Sane(pat, i) && i.Chars?
    ensures Passes(src, pat, s, i, caps, m, now) <==> TakesAt(src, pat, s, i, m) && now == caps
    ensures TakesAt(src, pat, s, i, m) ==> m <= |src|
  {
  }

  lemma StuckIs(src: string, pat: string, s: nat, p: nat, caps: seq<Capture>)
    requires s <= |src| && p <= |pat|
    ensures Stuck(src, pat, s, p, caps) <==> Outcomes(src, pat, s, p, caps) == []
  {
    hide Outcomes, Reaches;
    var all := Outcomes(src, pat, s, p, caps);
    if all != [] {
      OutcomesReached(src, pat, s, p, caps, all[0]);
    } else {
      forall x: Leaf
        ensures !Reaches(src, pat, s, p, caps, x)
      {
        OutcomesReached(src, pat, s, p, caps, x);
      }
    }
  }

  // ----- which comes first -----

  /** For the lazy suffix fewer characters come first, for the others more. */
  predicate Sooner(r: Repeat, a: nat, b: nat) {
    if r.Lazy? then a < b else a > b
  }

  /** Whatever the item would rather take than what lies before m leaves the rest stuck. */
  ghost predicate NoneSooner(src: string, pat: string, s: nat, i: Item, caps: seq<Capture>, m: nat)
    requires s <= |src| && Sane(pat, i) && Continues(i)
  {
    i.Chars? ==>
      forall k: nat | TakesAt(src, pat, s, i, k) && Sooner(i.repeat, k, m) ::
        k <= |src| && Stuck(src, pat, k, i.next, caps)
  }

  /** x is what backtracking comes to first: each item takes what it takes first among all that get the rest
      anywhere. */
  ghost predicate Best(src: string, pat: string, s: nat, p: nat, caps: seq<Capture>, x: Leaf)
    requires s <= |src| && p <= |pat|
    decreases |pat| - p
  {
    var i := ItemAt(pat, p);
    ItemsSane(pat, p);
    || (x.Fault? && Raises(i, caps, x.error))
    || (i.Finish? && x == End(s, caps))
    || (i.Anchor? && s == |src| && x == End(s, caps))
    || (Continues(i) && exists m: nat, now: seq<Capture> ::
          && Passes(src, pat, s, i, caps, m, now) && m <= |src| && NoneSooner(src, pat, s, i, caps, m)
          && Best(src, pat, m, i.next, now, x))
  }

  /** The first outcome is after the characters that the item takes first. */
  lemma FirstTaken(src: string, pat: string, s: nat, i: Item, caps: seq<Capture>) returns (m: nat)
    requires s <= |src| && i.Chars? && Sane(pat, i) && Step(src, pat, s, i, caps) != []
    ensures TakesAt(src, pat, s, i, m) && m <= |src| && NoneSooner(src, pat, s, i, caps, m)
    ensures Outcomes(src, pat, m, i.next, caps) != []
    ensures Step(src, pat, s, i, caps)[0] == Outcomes(src, pat, m, i.next, caps)[0]
  {
    hide Outcomes, Longest, Shortest, Run, Fits, TakesAt, Stuck;
    ItemTakes(src, pat, s, i);
    FirstFits(src, pat, s, i);
    var r := Run(src, s, pat, i.p, i.ep);
    match i.repeat {
      case Once => m := s + 1;
      case AtMostOnce =>
        m := if Fits(src, s, pat, i.p, i.ep) && Outcomes(src, pat, s + 1, i.next, caps) != [] then s + 1 else s;
      case Greedy => m := LongestFirst(src, pat, s, r, i.next, caps);
      case GreedyOne => m := LongestFirst(src, pat, s + 1, Run(src, s + 1, pat, i.p, i.ep), i.next, caps);
      case Lazy => m := ShortestFirst(src, pat, s, r, i.next, caps);
    }
    forall k: nat | TakesAt(src, pat, s, i, k) && Sooner(i.repeat, k, m)
      ensures k <= |src| && Stuck(src, pat, k, i.next, caps)
    {
      StuckIs(src, pat, k, i.next, caps);
    }
  }

  /** What matching comes to first is best, for every pattern. */
  lemma {:induction false} FirstBest(src: string, pat: string, s: nat, p: nat, caps: seq<Capture>)
    requires s <= |src| && p <= |pat| && Outcomes(src, pat, s, p, caps) != []
    ensures Best(src, pat, s, p, caps, Outcomes(src, pat, s, p, caps)[0])
    decreases |pat| - p
  {
    hide Outcomes, Step, ItemAt, Raises, Passes, TakesAt, NoneSooner;
    var i := ItemAt(pat, p);
    ItemsSane(pat, p);
    Unfold(src, pat, s, p, caps);
    if e: MatchError :| Raises(i, caps, e) {
      RaisesAlone(src, pat, s, i, caps, e);
    } else if !Continues(i) {
      NotBroken(i, caps);
      EndStep(src, pat, s, i, caps);
    } else if i.Chars? {
      var m := FirstTaken(src, pat, s, i, caps);
      CharsPass(src, pat, s, i, caps, m, caps);
      FirstBest(src, pat, m, i.next, caps);
    } else {
      var passes, m, now := OnePass(src, pat, s, i, caps);
      FirstBest(src, pat, m, i.next, now);
      OneOnly(src, pat, s, i, caps, m);
    }
  }

  lemma OneOnly(src: string, pat: string, s: nat, i: Item, caps: seq<Capture>, m: nat)
    requires s <= |src| && Sane(pat, i) && Continues(i) && !i.Chars?
    ensures NoneSooner(src, pat, s, i, caps, m)
  {
  }

  /** Nothing else is best. */
  lemma {:induction false} BestOnly(src: string, pat: string, s: nat, p: nat, caps: seq<Capture>, x: Leaf)
    requires s <= |src| && p <= |pat| && Best(src, pat, s, p, caps, x)
    ensures Outcomes(src, pat, s, p, caps) != [] && Outcomes(src, pat, s, p, caps)[0] == x
    decreases |pat| - p
  {
    hide Outcomes, Step, ItemAt, Raises, Passes, TakesAt, NoneSooner;
    var i := ItemAt(pat, p);
    ItemsSane(pat, p);
    Unfold(src, pat, s, p, caps);
    if e: MatchError :| Raises(i, caps, e) {
      RaisesAlone(src, pat, s, i, caps, e);
    } else if !Continues(i) {
      NotBroken(i, caps);
      EndStep(src, pat, s, i, caps);
    } else {
      var m: nat, now: seq<Capture> :| Passes(src, pat, s, i, caps, m, now) && m <= |src| &&
        NoneSooner(src, pat, s, i, caps, m) && Best(src, pat, m, i.next, now, x);
      BestOnly(src, pat, m, i.next, now, x);
      if i.Chars? {
        NextOutcomes(src, pat, s, i, caps, x);
        var k := FirstTaken(src, pat, s, i, caps);
        CharsPass(src, pat, s, i, caps, m, now);
        SameTaken(src, pat, s, i, caps, m, k);
      } else {
        var passes, k, c := OnePass(src, pat, s, i, caps);
      }
    }
  }

  lemma SameTaken(src: string, pat: string, s: nat, i: Item, caps: seq<Capture>, m: nat, k: nat)
    requires s <= |src| && Sane(pat, i) && i.Chars? && m <= |src| && k <= |src|
    requires TakesAt(src, pat, s, i, m) && NoneSooner(src, pat, s, i, caps, m) &&
      Outcomes(src, pat, m, i.next, caps) != []
    requires TakesAt(src, pat, s, i, k) && NoneSooner(src, pat, s, i, caps, k) &&
      Outcomes(src, pat, k, i.next, caps) != []
    ensures m == k
  {
    hide Outcomes, TakesAt, Stuck;
    StuckIs(src, pat, m, i.next, caps);
    StuckIs(src, pat, k, i.next, caps);
  }

  /** For every pattern: matching comes first to x if and only if x is best; there is one best end or error at most. */
  lemma BestFirst(src: string, pat: string, s: nat, p: nat, caps: seq<Capture>, x: Leaf)
    requires s <= |src| && p <= |pat|
    ensures Best(src, pat, s, p, caps, x) <==>
      Outcomes(src, pat, s, p, caps) != [] && Outcomes(src, pat, s, p, caps)[0] == x
  {
    hide Best, Outcomes;
    if Best(src, pat, s, p, caps, x) {
      BestOnly(src, pat, s, p, caps, x);
    } else if Outcomes(src, pat, s, p, caps) != [] {
      FirstBest(src, pat, s, p, caps);
    }
  }
}
