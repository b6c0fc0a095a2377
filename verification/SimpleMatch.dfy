/** What `match` finds for simple patterns, said of texts alone. */
module SimpleMatch {
  import opened Find
  import opened Matcher
  import opened PatternLanguage
  import opened PatternMeaning
  import opened Patterns
  import opened Recursion

  /** Some text from s on is in the language of the pattern from p on. */
  ghost predicate CanMatch(src: string, pat: string, s: nat, p: nat)
    requires s <= |src| && p <= |pat| && Simple(pat, p)
  {
    exists e: nat :: s <= e <= |src| && Lang(pat, Items(pat, p), src[s..e])
  }

  /** The end that backtracking prefers: each item takes what it takes first among all that let the rest match. */
  ghost predicate Preferred(src: string, pat: string, s: nat, p: nat, e: nat)
    requires p <= |pat| && Simple(pat, p)
    decreases |pat| - p
  {
    var i := ItemAt(pat, p);
    if i.Finish? then e == s
    else exists m: nat :: TakesFirst(src, pat, s, i, m) && Preferred(src, pat, m, i.next, e)
  }

  /** The item takes the characters from s to m, and whatever it would rather take lets the rest not match. */
  ghost predicate TakesFirst(src: string, pat: string, s: nat, i: Item, m: nat)
    requires i.Chars? && i.ep > 0 && i.next <= |pat| && Simple(pat, i.next)
  {
    && TakesAt(src, pat, s, i, m) && m <= |src|
    && forall k: nat | TakesAt(src, pat, s, i, k) && Sooner(i.repeat, k, m) ::
      k <= |src| && !CanMatch(src, pat, k, i.next)
  }

  lemma NoOutcome(src: string, pat: string, s: nat, p: nat, caps: seq<Capture>)
    requires s <= |src| && p <= |pat| && Simple(pat, p)
    ensures Outcomes(src, pat, s, p, caps) == [] <==> !CanMatch(src, pat, s, p)
    ensures Outcomes(src, pat, s, p, caps) != [] ==> Outcomes(src, pat, s, p, caps)[0].End?
  {
    hide Outcomes, Items, Lang;
    var all := Outcomes(src, pat, s, p, caps);
    if all != [] {
      EndsInLanguage(src, pat, s, p, caps, all[0]);
    }
    if e: nat :| s <= e <= |src| && Lang(pat, Items(pat, p), src[s..e]) {
      EndsInLanguage(src, pat, s, p, caps, End(e, caps));
    }
  }

  /** The first outcome is after the characters that the item takes first. */
  lemma FirstTakes(src: string, pat: string, s: nat, i: Item, caps: seq<Capture>) returns (m: nat)
    requires s <= |src| && i.Chars? && i.ep > 0 && i.next <= |pat| && Simple(pat, i.next)
    requires Step(src, pat, s, i, caps) != []
    ensures TakesFirst(src, pat, s, i, m)
    ensures Outcomes(src, pat, m, i.next, caps) != []
    ensures Step(src, pat, s, i, caps)[0] == Outcomes(src, pat, m, i.next, caps)[0]
  {
    hide Outcomes, Step, TakesAt, CanMatch, Simple, Stuck;
    m := FirstTaken(src, pat, s, i, caps);
    forall k: nat | TakesAt(src, pat, s, i, k) && Sooner(i.repeat, k, m)
      ensures k <= |src| && !CanMatch(src, pat, k, i.next)
    {
      StuckIs(src, pat, k, i.next, caps);
      NoOutcome(src, pat, k, i.next, caps);
    }
  }

  /** The first outcome of a simple pattern is the preferred end. */
  lemma {:induction false} FirstPreferred(src: string, pat: string, s: nat, p: nat, caps: seq<Capture>)
    requires s <= |src| && p <= |pat| && Simple(pat, p) && Outcomes(src, pat, s, p, caps) != []
    ensures var x := Outcomes(src, pat, s, p, caps)[0]; x.End? && Preferred(src, pat, s, p, x.end)
    decreases |pat| - p
  {
    hide TakesFirst, ItemAt;
    NoOutcome(src, pat, s, p, caps);
    var i := ItemAt(pat, p);
    if !i.Finish? {
      SimpleNext(pat, p);
      var m := FirstTakes(src, pat, s, i, caps);
      TakesFirstBound(src, pat, s, i, m);
      FirstPreferred(src, pat, m, i.next, caps);
    }
  }

  lemma TakesFirstBound(src: string, pat: string, s: nat, i: Item, m: nat)
    requires i.Chars? && i.ep > 0 && i.next <= |pat| && Simple(pat, i.next) && TakesFirst(src, pat, s, i, m)
    ensures m <= |src|
  {
  }

  /** `match` on a simple pattern, from the start of both: an end is found exactly if some prefix is in the language,
      and then it is the preferred one, whose prefix is in the language; the only error is that of the limit, which
      takes more items with suffixes than there are levels. */
  method MatchPrefix(src: string, pat: string) returns (r: Outcome)
    requires Simple(pat, 0)
    ensures r.Found? ==>
      && r.end <= |src| && Lang(pat, Items(pat, 0), src[..r.end]) && Preferred(src, pat, 0, 0, r.end)
    ensures r.Failed? ==> !CanMatch(src, pat, 0, 0)
    ensures r.Raised? ==> r.error == TooComplex && Nesting(pat, 0) >= MAX_XLEVEL
  {
    hide Outcomes, Items, Lang, Preferred, Simple, Nesting, Deep;
    var ms := new MatchState(src, pat);
    assert ms.Caps() == [];
    r := ms.Match(0, 0);
    NoOutcome(src, pat, 0, 0, []);
    if r.Found? {
      var x := End(r.end, ms.Caps());
      EndsInLanguage(src, pat, 0, 0, [], x);
      FirstPreferred(src, pat, 0, 0, []);
      assert src[0..r.end] == src[..r.end];
    }
    if Nesting(pat, 0) < MAX_XLEVEL {
      NestingSuffices(src, pat, 0, 0, [], MAX_XLEVEL - 1);
    }
  }

  /** i is the first place from init on at which the pattern can match. */
  ghost predicate FirstMatch(src: string, pat: string, init: nat, i: nat)
    requires Simple(pat, 0)
  {
    init <= i <= |src| && CanMatch(src, pat, i, 0) && forall j: nat | init <= j < i :: !CanMatch(src, pat, j, 0)
  }

  /** r is the text from i to the end that the pattern prefers there. */
  ghost predicate TextAt(src: string, pat: string, i: nat, r: Result<seq<Value>>)
    requires Simple(pat, 0)
  {
    exists w: string :: r == Ok([Str(w)]) && OccursAt(src, w, i) && Preferred(src, pat, i, 0, i + |w|)
  }

  /** What `string.match` returns for a simple pattern: the text at the first place where some text is in the language,
      up to the preferred end; or nil, exactly if there is no such place. */
  lemma SimpleAnswers(src: string, pat: string, init: nat, r: Result<seq<Value>>)
    requires init <= |src| && Simple(pat, 0) && Answers(src, pat, 0, init, false, false, r)
    ensures r == Ok([Nil]) <==> forall j: nat | init <= j <= |src| :: !CanMatch(src, pat, j, 0)
    ensures forall i: nat | FirstMatch(src, pat, init, i) :: TextAt(src, pat, i, r)
  {
    hide Simple, CanMatch, Preferred, Best, Stuck, Returns;
    forall j: nat | init <= j <= |src|
      ensures Stuck(src, pat, j, 0, []) <==> !CanMatch(src, pat, j, 0)
    {
      StuckIs(src, pat, j, 0, []);
      NoOutcome(src, pat, j, 0, []);
    }
    if i: nat, x: Leaf :| MeetsAt(src, pat, 0, init, false, i, x) && Returns(src, false, i, x, r) {
      SimpleReturns(src, pat, i, x, r);
    }
  }

  lemma SimpleReturns(src: string, pat: string, i: nat, x: Leaf, r: Result<seq<Value>>)
    requires i <= |src| && Simple(pat, 0) && Best(src, pat, i, 0, [], x) && Returns(src, false, i, x, r)
    ensures CanMatch(src, pat, i, 0) && TextAt(src, pat, i, r) && r != Ok([Nil])
  {
    hide Simple, CanMatch, Preferred, Best, Items, Lang, Outcomes, Stuck;
    BestFirst(src, pat, i, 0, [], x);
    NoOutcome(src, pat, i, 0, []);
    FirstPreferred(src, pat, i, 0, []);
    EndsInLanguage(src, pat, i, 0, [], x);
    assert x == End(x.end, []);
    var w := TextReturned(src, i, x.end, r);
  }

  lemma TextReturned(src: string, i: nat, e: nat, r: Result<seq<Value>>) returns (w: string)
    requires i <= e && Returns(src, false, i, End(e, []), r)
    ensures r == Ok([Str(w)]) && OccursAt(src, w, i) && e == i + |w|
  {
    var vs: seq<Value> :| CapturesGive(src, false, i, e, [], vs) && r.value == [] + vs;
    assert Encloses(src, [Capture(i, e - i)][0], vs[0]);
    w := vs[0].s;
    assert [] + vs == [Str(w)];
  }
}
