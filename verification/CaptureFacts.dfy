/** What the captures of a match can be. */
module CaptureFacts {
  import opened Patterns
  import opened PatternLanguage

  /** Captures made up to position s: each begins there or before, and each that is closed ends there or before. */
  ghost predicate MadeBefore(caps: seq<Capture>, s: nat) {
    |caps| <= MAX_CAPTURES && forall k | 0 <= k < |caps| :: MadeOne(caps[k], s)
  }

  predicate MadeOne(c: Capture, s: nat) {
    CAP_POSITION <= c.len && c.init <= s && c.init + c.len <= s
  }

  /** More captures may have been opened, and open ones closed; nothing else changed. */
  ghost predicate Extends(was: seq<Capture>, caps: seq<Capture>) {
    |was| <= |caps| && forall k | 0 <= k < |was| :: Kept(was[k], caps[k])
  }

  predicate Kept(was: Capture, c: Capture) {
    c.init == was.init && (was.len != CAP_UNFINISHED ==> c == was)
  }

  /** Every way to match keeps the captures that were complete, and leaves all of them within the text matched so
      far. */
  lemma {:induction false} CapturesGood(src: string, pat: string, s: nat, p: nat, caps: seq<Capture>, x: Leaf)
    requires s <= |src| && p <= |pat| && MadeBefore(caps, s) && x in Outcomes(src, pat, s, p, caps) && x.End?
    ensures s <= x.end <= |src| && MadeBefore(x.caps, x.end) && Extends(caps, x.caps)
    decreases |pat| - p
  {
    hide ItemAt, Step, Single, MadeBefore, Extends, OpenCapture;
    ExtendsItself(caps);
    var i := ItemAt(pat, p);
    match i
    case Chars(q, ep, repeat, next) =>
      ItemOutcomes(src, pat, s, i, caps, x);
      var e: nat :| TakesAt(src, pat, s, i, e) && x in Outcomes(src, pat, e, next, caps);
      MadeLater(caps, s, e);
      CapturesGood(src, pat, e, next, caps, x);
    case Open(what, next) =>
      OpenGood(src, pat, s, p, caps, x);
      CapturesGood(src, pat, s, next, caps + [Capture(s, what)], x);
      ExtendsThen(caps, caps + [Capture(s, what)], x.caps);
    case Close(next) =>
      var was := CloseGood(src, pat, s, p, caps, x);
      CapturesGood(src, pat, s, next, was, x);
      ExtendsThen(caps, was, x.caps);
    case _ =>
      var e, next := OtherGood(src, pat, s, p, caps, x);
      if Continues(i) {
        MadeLater(caps, s, e);
        CapturesGood(src, pat, e, next, caps, x);
      }
  }

  lemma ExtendsItself(caps: seq<Capture>)
    ensures Extends(caps, caps)
  {
  }

  lemma MadeLater(caps: seq<Capture>, s: nat, e: nat)
    requires MadeBefore(caps, s) && s <= e
    ensures MadeBefore(caps, e)
  {
  }

  lemma ExtendsThen(a: seq<Capture>, b: seq<Capture>, c: seq<Capture>)
    requires Extends(a, b) && Extends(b, c)
    ensures Extends(a, c)
  {
    forall k | 0 <= k < |a|
      ensures Kept(a[k], c[k])
    {
      assert Kept(a[k], b[k]) && Kept(b[k], c[k]);
    }
  }

  lemma OpenGood(src: string, pat: string, s: nat, p: nat, caps: seq<Capture>, x: Leaf)
    requires s <= |src| && p <= |pat| && MadeBefore(caps, s) && x in Outcomes(src, pat, s, p, caps) && x.End?
    requires ItemAt(pat, p).Open?
    ensures var i := ItemAt(pat, p);
      var now := caps + [Capture(s, i.what)];
      && x in Outcomes(src, pat, s, i.next, now) && MadeBefore(now, s) && Extends(caps, now)
  {
    hide Outcomes;
    Fold(src, pat, s, p, caps);
    OpenKind(pat, p);
    hide ItemAt;
  }

  lemma OpenKind(pat: string, p: nat)
    requires p <= |pat| && ItemAt(pat, p).Open?
    ensures ItemAt(pat, p).what == CAP_POSITION || ItemAt(pat, p).what == CAP_UNFINISHED
  {
  }

  lemma Fold(src: string, pat: string, s: nat, p: nat, caps: seq<Capture>)
    requires s <= |src| && p <= |pat|
    ensures Outcomes(src, pat, s, p, caps) == Step(src, pat, s, ItemAt(pat, p), caps)
  {
  }

  lemma CloseGood(src: string, pat: string, s: nat, p: nat, caps: seq<Capture>, x: Leaf) returns (now: seq<Capture>)
    requires s <= |src| && p <= |pat| && MadeBefore(caps, s) && x in Outcomes(src, pat, s, p, caps) && x.End?
    requires ItemAt(pat, p).Close?
    ensures x in Outcomes(src, pat, s, ItemAt(pat, p).next, now) && MadeBefore(now, s) && Extends(caps, now)
  {
    hide Outcomes, ItemAt;
    Fold(src, pat, s, p, caps);
    var l := OpenCapture(caps);
    assert l >= 0;
    now := caps[l := Capture(caps[l].init, s - caps[l].init)];
    forall k | 0 <= k < |now|
      ensures MadeOne(now[k], s) && Kept(caps[k], now[k])
    {
      assert MadeOne(caps[k], s);
    }
  }

  lemma OtherGood(src: string, pat: string, s: nat, p: nat, caps: seq<Capture>, x: Leaf) returns (e: nat, next: nat)
    requires s <= |src| && p <= |pat| && MadeBefore(caps, s) && x in Outcomes(src, pat, s, p, caps) && x.End?
    requires var i := ItemAt(pat, p); !i.Chars? && !i.Open? && !i.Close?
    ensures var i := ItemAt(pat, p);
      if Continues(i) then
        next == i.next && s <= e <= |src| && x in Outcomes(src, pat, e, next, caps) else x == End(s, caps)
  {
    hide Outcomes, ItemAt, OpenCapture, SetHas;
    Fold(src, pat, s, p, caps);
    var i := ItemAt(pat, p);
    e, next := s, if Continues(i) then i.next else p;
    match i
    case Balance(open, close, _) =>
      e := BalanceEnd(src, s + 1, open, close, 1);
    case Back(digit, _) =>
      e := s + caps[digit as int - '1' as int].len;
    case _ =>
  }
}
