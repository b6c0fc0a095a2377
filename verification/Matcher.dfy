/** The backtracking matcher of `lib_string.c`, with its capture state, proved against the meaning of patterns. */
module Matcher {
  import opened Balance
  import opened Numerals
  import opened PatternMeaning
  import opened Patterns
  import opened PatternSyntax
  import opened Recursion

  /** Found gives the end of the match; Raised stands for a Lua error. */
  datatype Outcome = Found(end: nat) | Failed | Raised(error: MatchError)

  /** What one turn of the loop in `match` decides: to go on with the rest of the pattern at s, or to stop. */
  datatype Turn = Go(s: nat, p: nat) | Stop(r: Outcome)

  class MatchState {
    const src: string
    const pat: string
    var level: nat
    var depth: nat
    var capture: seq<Capture>

    /** The captures made so far. */
    ghost function Caps(): seq<Capture>
      reads this
    {
      if level <= |capture| then capture[..level] else capture
    }

    ghost predicate Valid()
      reads this
    {
      level <= MAX_CAPTURES == |capture| && depth <= MAX_XLEVEL
    }

    /** The result agrees with the first of the outcomes. A failure leaves the captures as they were. */
    ghost predicate Meets(r: Outcome, all: seq<Leaf>, was: seq<Capture>)
      reads this
    {
      match r
      case Found(e) => all != [] && all[0] == End(e, Caps())
      case Failed => all == [] && Caps() == was
      case Raised(e) => e == TooComplex || (all != [] && all[0] == Fault(e))
    }

    /** The same said without outcomes: the end or error is the best, and a failure means that there is none. */
    ghost predicate Comes(r: Outcome, s: nat, p: nat, was: seq<Capture>)
      requires s <= |src| && p <= |pat|
      reads this
    {
      match r
      case Found(e) => Best(src, pat, s, p, was, End(e, Caps()))
      case Failed => Stuck(src, pat, s, p, was)
      case Raised(e) => e == TooComplex || Best(src, pat, s, p, was, Fault(e))
    }

    lemma MeetsComes(r: Outcome, s: nat, p: nat, was: seq<Capture>)
      requires s <= |src| && p <= |pat| && Meets(r, Outcomes(src, pat, s, p, was), was)
      ensures Comes(r, s, p, was)
    {
      hide Outcomes, Best, Stuck;
      StuckIs(src, pat, s, p, was);
      match r
      case Found(e) => BestFirst(src, pat, s, p, was, End(e, Caps()));
      case Failed =>
      case Raised(e) => BestFirst(src, pat, s, p, was, Fault(e));
    }

    constructor (src: string, pat: string)
      ensures this.src == src && this.pat == pat && Valid() && level == depth == 0
    {
      this.src, this.pat := src, pat;
      level, depth := 0, 0;
      capture := seq(MAX_CAPTURES, i => Capture(0, 0));
    }

    // ----- helpers that only look at the pattern -----

    /** `classend` */
    method SkipClass(p0: nat) returns (r: Scan)
      requires p0 < |pat|
      ensures r == ClassEnd(pat, p0)
    {
      var p := p0 + 1;
      if pat[p0] == ESC {
        return if At(pat, p) == '\0' then Bad(EndsWithEscape) else Next(p + 1);
      } else if pat[p0] == '[' {
        if At(pat, p) == '^' {
          p := p + 1;
        }
        while true
          invariant ClassEnd(pat, p0) == SetEnd(pat, p)
          decreases |pat| - p
        {
          if At(pat, p) == '\0' {
            return Bad(MissingBracket);
          }
          var c := pat[p];
          p := p + 1;
          if c == ESC && At(pat, p) != '\0' {
            p := p + 1;
          }
          if At(pat, p) == ']' {
            return Next(p + 1);
          }
        }
      }
      return Next(p);
    }

    /** `matchbracketclass` */
    method MatchSet(c: char, p0: nat, ec: nat) returns (b: bool)
      ensures b == InSet(c, pat, p0, ec)
      ensures forall negated: bool, es: seq<Element> | SetAt(pat, p0, ec, negated, es) ::
          b == (SomeHas(es, c) != negated)
    {
      SetsMean(c, pat, p0, ec);
      hide MatchClass, SetAt, SomeHas;
      var sig, p := true, p0;
      if At(pat, p + 1) == '^' {
        sig := false;
        p := p + 1;
      }
      p := p + 1;
      while p < ec
        invariant InSet(c, pat, p0, ec) == (sig == SetHas(c, pat, p, ec))
        decreases ec - p
      {
        if At(pat, p) == ESC {
          p := p + 1;
          if MatchClass(c, At(pat, p)) {
            return sig;
          }
        } else if At(pat, p + 1) == '-' && p + 2 < ec {
          p := p + 2;
          if At(pat, p - 2) <= c <= At(pat, p) {
            return sig;
          }
        } else if At(pat, p) == c {
          return sig;
        }
        p := p + 1;
      }
      return !sig;
    }

    /** `singlematch`, for the character at s if there is one. */
    method SingleMatch(s: nat, p: nat, ep: nat) returns (b: bool)
      requires ep > 0
      ensures b == Fits(src, s, pat, p, ep)
    {
      if s >= |src| {
        return false;
      }
      var c := At(pat, p);
      if c == '.' {
        b := true;
      } else if c == ESC {
        b := MatchClass(src[s], At(pat, p + 1));
      } else if c == '[' {
        b := MatchSet(src[s], p, ep - 1);
      } else {
        b := c == src[s];
      }
    }

    /** `matchbalance` for the two characters; -1 if there is no balanced string at s. */
    method MatchBalance(s0: nat, open: char, close: char) returns (e: int)
      requires open != '\0'
      ensures e == if At(src, s0) == open then BalanceEnd(src, s0 + 1, open, close, 1) else -1
      ensures if e < 0 then forall k: nat :: !Balanced(src, s0, k, open, close)
              else Balanced(src, s0, e, open, close)
    {
      hide Balanced;
      BalanceMeans(src, s0, open, close);
      if At(src, s0) != open {
        return -1;
      }
      var s, cont := s0 + 1, 1;
      while s < |src|
        invariant cont >= 1 && BalanceEnd(src, s0 + 1, open, close, 1) == BalanceEnd(src, s, open, close, cont)
        decreases |src| - s
      {
        if src[s] == close {
          cont := cont - 1;
          if cont == 0 {
            return s + 1;
          }
        } else if src[s] == open {
          cont := cont + 1;
        }
        s := s + 1;
      }
      return -1;
    }

    /** `match_capture`: where the text of capture digit, repeated at s, ends; -1 if it does not repeat. */
    method MatchCapture(s: nat, digit: char) returns (e: int, known: bool)
      requires Valid() && s <= |src| && IsDigit(digit)
      ensures known == Known(Caps(), digit)
      ensures known ==>
        var c := Caps()[digit as int - '1' as int]; e == if Repeats(src, s, c) then s + c.len else -1
    {
      var l := digit as int - '1' as int;
      e := -1;
      known := 0 <= l < level && capture[l].len != CAP_UNFINISHED;
      if known {
        assert Caps()[l] == capture[l];
        var c := capture[l];
        if c.len >= 0 && |src| - s >= c.len && c.init + c.len <= |src| &&
          src[c.init..c.init + c.len] == src[s..s + c.len]
        {
          e := s + c.len;
        }
      }
    }

    // ----- the matcher -----

    /** The result of one turn fits all ways to match that were open before it; p is where the pattern was. */
    ghost predicate Turns(t: Turn, all: seq<Leaf>, was: seq<Capture>, p: nat)
      reads this
    {
      match t
      case Go(s, q) => s <= |src| && p < q <= |pat| && Caps() == was && all == Outcomes(src, pat, s, q, was)
      case Stop(r) => Meets(r, all, was)
    }

    /** The turn meets the limit, or goes on to meet it, if and only if deep; d levels are left. */
    ghost predicate TurnsDeep(t: Turn, deep: bool, was: seq<Capture>, d: nat) {
      match t
      case Go(s, q) => s <= |src| && q <= |pat| && deep == Deep(src, pat, s, q, was, d)
      case Stop(r) => deep == (r == Raised(TooComplex))
    }

    /** `match` */
    method Match(s0: nat, p0: nat) returns (r: Outcome)
      requires Valid() && s0 <= |src| && p0 <= |pat|
      modifies this
      decreases MAX_XLEVEL - depth, 0
      ensures r.Raised? || (Valid() && depth == old(depth))
      ensures Meets(r, Outcomes(src, pat, s0, p0, old(Caps())), old(Caps()))
      ensures Comes(r, s0, p0, old(Caps()))
      ensures r == Raised(TooComplex) <==> Enters(src, pat, s0, p0, old(Caps()), MAX_XLEVEL - old(depth))
      ensures Plain(pat, p0) && old(depth) < MAX_XLEVEL ==> !r.Raised?
    {
      hide Outcomes, Step, ItemAt, Plain, Enters, Deep, Comes;
      UnrollDeep(src, pat, s0, p0, Caps(), 0);
      depth := depth + 1;
      if depth > MAX_XLEVEL {
        r := Raised(TooComplex);
        MeetsComes(r, s0, p0, Caps());
        return;
      }
      var s: nat, p: nat := s0, p0;
      ghost var was := Caps();
      ghost var all := Outcomes(src, pat, s0, p0, was);
      UnrollDeep(src, pat, s0, p0, was, MAX_XLEVEL - depth);
      ghost var deep := Deep(src, pat, s0, p0, was, MAX_XLEVEL - depth);
      while true
        invariant Valid() && depth == old(depth) + 1 && Caps() == was && s <= |src| && p0 <= p <= |pat|
        invariant all == Outcomes(src, pat, s, p, was)
        invariant old(depth) < MAX_XLEVEL
        invariant deep == Deep(src, pat, s, p, was, MAX_XLEVEL - depth)
        invariant Plain(pat, p0) ==> Plain(pat, p)
        decreases |pat| - p
      {
        var t := MatchTurn(s, p);
        if t.Stop? {
          r := t.r;
          break;
        }
        s, p := t.s, t.p;
      }
      if !r.Raised? {
        depth := depth - 1;
      }
      MeetsComes(r, s0, p0, was);
    }

    /** One turn of the loop in `match`. */
    method MatchTurn(s: nat, p: nat) returns (t: Turn)
      requires Valid() && s <= |src| && p <= |pat|
      modifies this
      decreases MAX_XLEVEL - depth, 3
      ensures (t.Stop? && t.r.Raised?) || (Valid() && depth == old(depth))
      ensures Turns(t, Outcomes(src, pat, s, p, old(Caps())), old(Caps()), p)
      ensures TurnsDeep(t, Deep(src, pat, s, p, old(Caps()), MAX_XLEVEL - old(depth)), old(Caps()),
        MAX_XLEVEL - old(depth))
      ensures Plain(pat, p) ==> (if t.Stop? then !t.r.Raised? else Plain(pat, t.p))
    {
      hide Outcomes, ItemAt, Plain, Deep, Turns, TurnsDeep;
      PlainTurn(pat, p);
      var c := At(pat, p);
      if c == '(' || c == ')' {
        t := MatchParenthesis(s, p);
      } else if c == ESC && (At(pat, p + 1) == 'b' || At(pat, p + 1) == 'f' || IsDigit(At(pat, p + 1))) {
        t := MatchEscape(s, p);
      } else if c == '\0' || (c == '$' && At(pat, p + 1) == '\0') {
        t := MatchEnd(s, p);
      } else {
        t := MatchItem(s, p);
      }
    }

    /** The end of the pattern, and the anchor there. */
    method MatchEnd(s: nat, p: nat) returns (t: Turn)
      requires Valid() && s <= |src| && p <= |pat|
      requires At(pat, p) == '\0' || (At(pat, p) == '$' && At(pat, p + 1) == '\0')
      ensures t.Stop? && !t.r.Raised? && Turns(t, Outcomes(src, pat, s, p, Caps()), Caps(), p)
      ensures TurnsDeep(t, Deep(src, pat, s, p, Caps(), MAX_XLEVEL - depth), Caps(), MAX_XLEVEL - depth)
    {
      hide Outcomes, Deep, Enters;
      Unroll(src, pat, s, p, Caps());
      UnrollDeep(src, pat, s, p, Caps(), MAX_XLEVEL - depth);
      t := Stop(if At(pat, p) == '\0' || s == |src| then Found(s) else Failed);
    }

    /** The cases of `match` for parentheses. */
    method MatchParenthesis(s: nat, p: nat) returns (t: Turn)
      requires Valid() && s <= |src| && p < |pat| && (pat[p] == '(' || pat[p] == ')')
      modifies this
      decreases MAX_XLEVEL - depth, 2
      ensures t.Stop? && (t.r.Raised? || (Valid() && depth == old(depth)))
      ensures Turns(t, Outcomes(src, pat, s, p, old(Caps())), old(Caps()), p)
      ensures TurnsDeep(t, Deep(src, pat, s, p, old(Caps()), MAX_XLEVEL - old(depth)), old(Caps()),
        MAX_XLEVEL - old(depth))
    {
      hide Outcomes, Deep, Enters;
      Unroll(src, pat, s, p, Caps());
      UnrollDeep(src, pat, s, p, Caps(), MAX_XLEVEL - depth);
      var r;
      if pat[p] == ')' {
        r := EndCapture(s, p + 1);
      } else if At(pat, p + 1) == ')' {
        r := StartCapture(s, p + 2, CAP_POSITION);
      } else {
        r := StartCapture(s, p + 1, CAP_UNFINISHED);
      }
      t := Stop(r);
    }

    /** The cases of `match` for balanced strings, frontiers and repeated captures. */
    method MatchEscape(s: nat, p: nat) returns (t: Turn)
      requires Valid() && s <= |src| && p < |pat| && pat[p] == ESC
      requires At(pat, p + 1) == 'b' || At(pat, p + 1) == 'f' || IsDigit(At(pat, p + 1))
      ensures Turns(t, Outcomes(src, pat, s, p, Caps()), Caps(), p)
      ensures TurnsDeep(t, Deep(src, pat, s, p, Caps(), MAX_XLEVEL - depth), Caps(), MAX_XLEVEL - depth)
    {
      hide Outcomes, Deep, Enters, SetEnd, SetHas, BalanceEnd, OpenCapture;
      Unroll(src, pat, s, p, Caps());
      UnrollDeep(src, pat, s, p, Caps(), MAX_XLEVEL - depth);
      if At(pat, p + 1) == 'b' {
        if At(pat, p + 2) == '\0' || At(pat, p + 3) == '\0' {
          return Stop(Raised(UnbalancedPattern));
        }
        var e := MatchBalance(s, At(pat, p + 2), At(pat, p + 3));
        t := if e < 0 then Stop(Failed) else Go(e, p + 4);
      } else if At(pat, p + 1) == 'f' {
        if At(pat, p + 2) != '[' {
          return Stop(Raised(MissingFrontierSet));
        }
        var q := SkipClass(p + 2);
        if q.Bad? {
          return Stop(Raised(q.error));
        }
        var before := MatchSet(if s == 0 then '\0' else src[s - 1], p + 2, q.p - 1);
        var here := MatchSet(At(src, s), p + 2, q.p - 1);
        t := if before || !here then Stop(Failed) else Go(s, q.p);
      } else {
        var e, known := MatchCapture(s, At(pat, p + 1));
        t := if !known then Stop(Raised(InvalidCaptureIndex)) else if e < 0 then Stop(Failed) else Go(e, p + 2);
      }
    }

    /** The default case of `match`: a single character, perhaps repeated. */
    method MatchItem(s: nat, p: nat) returns (t: Turn)
      requires Valid() && s <= |src| && p < |pat| && ItemAt(pat, p) == CharsAt(pat, p)
      modifies this
      decreases MAX_XLEVEL - depth, 2
      ensures (t.Stop? && t.r.Raised?) || (Valid() && depth == old(depth))
      ensures Turns(t, Outcomes(src, pat, s, p, old(Caps())), old(Caps()), p)
      ensures TurnsDeep(t, Deep(src, pat, s, p, old(Caps()), MAX_XLEVEL - old(depth)), old(Caps()),
        MAX_XLEVEL - old(depth))
      ensures Plain(pat, p) ==> (if t.Stop? then t.r == Failed else t.p == p + 1)
    {
      hide Outcomes, Deep, Enters, DeepLongest, DeepShortest, ItemAt, SetEnd, SetHas, Single, Run, Longest, Shortest;
      Unroll(src, pat, s, p, Caps());
      UnrollDeep(src, pat, s, p, Caps(), MAX_XLEVEL - depth);
      PlainItem(pat, p);
      var q := SkipClass(p);
      if q.Bad? {
        return Stop(Raised(q.error));
      }
      var ep := q.p;
      var m := SingleMatch(s, p, ep);
      var c := At(pat, ep);
      var r := Failed;
      if c == '?' {
        if m {
          r := Match(s + 1, ep + 1);
        }
        t := if r.Failed? then Go(s, ep + 1) else Stop(r);
      } else if c == '*' {
        r := MaxExpand(s, p, ep);
        t := Stop(r);
      } else if c == '+' {
        if m {
          r := MaxExpand(s + 1, p, ep);
        }
        t := Stop(r);
      } else if c == '-' {
        r := MinExpand(s, p, ep);
        t := Stop(r);
      } else {
        t := if m then Go(s + 1, ep) else Stop(Failed);
      }
    }

    /** The first loop of `max_expand`: how many characters in a row the item stands for. */
    method CountRun(s: nat, p: nat, ep: nat) returns (i: nat)
      requires s <= |src| && p < ep <= |pat|
      ensures i == Run(src, s, pat, p, ep)
    {
      hide Single;
      i := 0;
      var m := SingleMatch(s, p, ep);
      while m
        invariant s + i <= |src| && m == Fits(src, s + i, pat, p, ep)
        invariant Run(src, s, pat, p, ep) == i + Run(src, s + i, pat, p, ep)
        decreases |src| - s - i
      {
        i := i + 1;
        m := SingleMatch(s + i, p, ep);
      }
    }

    /** `max_expand` */
    method MaxExpand(s: nat, p: nat, ep: nat) returns (r: Outcome)
      requires Valid() && s <= |src| && p < ep < |pat|
      modifies this
      decreases MAX_XLEVEL - depth, 1
      ensures r.Raised? || (Valid() && depth == old(depth))
      ensures r == Raised(TooComplex) <==>
        DeepLongest(src, pat, s, Run(src, s, pat, p, ep), ep + 1, old(Caps()), MAX_XLEVEL - old(depth))
      ensures Meets(r, Longest(src, pat, s, Run(src, s, pat, p, ep), ep + 1, old(Caps())), old(Caps()))
    {
      hide Outcomes, Fits, Run, Enters;
      ghost var was := Caps();
      var i: int := CountRun(s, p, ep);
      ghost var all := Longest(src, pat, s, i, ep + 1, was);
      ghost var deep := DeepLongest(src, pat, s, i, ep + 1, was, MAX_XLEVEL - depth);
      while i >= 0
        invariant -1 <= i && s + i <= |src| && Valid() && depth == old(depth) && Caps() == was
        invariant all == if i < 0 then [] else Longest(src, pat, s, i, ep + 1, was)
        invariant deep == (i >= 0 && DeepLongest(src, pat, s, i, ep + 1, was, MAX_XLEVEL - depth))
        decreases i
      {
        r := Match(s + i, ep + 1);
        if !r.Failed? {
          return;
        }
        i := i - 1;
      }
      r := Failed;
    }

    /** `min_expand` */
    method MinExpand(s0: nat, p: nat, ep: nat) returns (r: Outcome)
      requires Valid() && s0 <= |src| && p < ep < |pat|
      modifies this
      decreases MAX_XLEVEL - depth, 1
      ensures r.Raised? || (Valid() && depth == old(depth))
      ensures r == Raised(TooComplex) <==>
        DeepShortest(src, pat, s0, Run(src, s0, pat, p, ep), ep + 1, old(Caps()), MAX_XLEVEL - old(depth))
      ensures Meets(r, Shortest(src, pat, s0, Run(src, s0, pat, p, ep), ep + 1, old(Caps())), old(Caps()))
    {
      hide Outcomes, Single, Run, Shortest, DeepShortest, Enters;
      var s := s0;
      ghost var was := Caps();
      ghost var all := Shortest(src, pat, s0, Run(src, s0, pat, p, ep), ep + 1, was);
      ghost var deep := DeepShortest(src, pat, s0, Run(src, s0, pat, p, ep), ep + 1, was, MAX_XLEVEL - depth);
      while true
        invariant s <= |src| && Valid() && depth == old(depth) && Caps() == was
        invariant all == Shortest(src, pat, s, Run(src, s, pat, p, ep), ep + 1, was)
        invariant deep == DeepShortest(src, pat, s, Run(src, s, pat, p, ep), ep + 1, was, MAX_XLEVEL - depth)
        decreases |src| - s
      {
        ShortestRun(src, pat, s, p, ep, was);
        DeepShortestRun(src, pat, s, p, ep, was, MAX_XLEVEL - depth);
        r := Match(s, ep + 1);
        if !r.Failed? {
          return;
        }
        var m := SingleMatch(s, p, ep);
        if !m {
          return;
        }
        s := s + 1;
      }
    }

    /** `start_capture` */
    method StartCapture(s: nat, p: nat, what: int) returns (r: Outcome)
      requires Valid() && s <= |src| && p <= |pat|
      modifies this
      decreases MAX_XLEVEL - depth, 1
      ensures r.Raised? || (Valid() && depth == old(depth))
      ensures r == Raised(TooComplex) <==>
        old(level) < MAX_CAPTURES && Enters(src, pat, s, p, old(Caps()) + [Capture(s, what)], MAX_XLEVEL - old(depth))
      ensures Meets(r, if old(level) >= MAX_CAPTURES then [Fault(TooManyCaptures)]
                       else Outcomes(src, pat, s, p, old(Caps()) + [Capture(s, what)]), old(Caps()))
    {
      hide Outcomes, Enters;
      if level >= MAX_CAPTURES {
        return Raised(TooManyCaptures);
      }
      ghost var was := Caps();
      capture := capture[level := Capture(s, what)];
      level := level + 1;
      assert Caps() == was + [Capture(s, what)];
      r := Match(s, p);
      if r.Failed? {
        level := level - 1;
        assert Caps() == was;
      }
    }

    /** `end_capture` */
    method EndCapture(s: nat, p: nat) returns (r: Outcome)
      requires Valid() && s <= |src| && p <= |pat|
      modifies this
      decreases MAX_XLEVEL - depth, 1
      ensures r.Raised? || (Valid() && depth == old(depth))
      ensures var l, was := OpenCapture(old(Caps())), old(Caps());
        r == Raised(TooComplex) <==>
          l >= 0 && Enters(src, pat, s, p, was[l := Capture(was[l].init, s - was[l].init)], MAX_XLEVEL - old(depth))
      ensures var l, was := OpenCapture(old(Caps())), old(Caps());
        Meets(r, if l < 0 then [Fault(InvalidCapture)]
                 else Outcomes(src, pat, s, p, was[l := Capture(was[l].init, s - was[l].init)]), was)
    {
      hide Outcomes, Enters;
      ghost var was := Caps();
      var l := CaptureToClose();
      if l < 0 {
        return Raised(InvalidCapture);
      }
      assert was[l] == capture[l];
      capture := capture[l := Capture(capture[l].init, s - capture[l].init)];
      assert Caps() == was[l := Capture(was[l].init, s - was[l].init)];
      r := Match(s, p);
      if r.Failed? {
        assert Caps()[l] == capture[l] && |Caps()| == |was|;
        capture := capture[l := Capture(capture[l].init, CAP_UNFINISHED)];
        assert Caps() == was;
      }
    }

    /** `capture_to_close`; -1 where the source raises an error. */
    method CaptureToClose() returns (l: int)
      requires Valid()
      ensures l == OpenCapture(Caps())
    {
      l := level - 1;
      assert Caps()[..level] == Caps();
      while l >= 0
        invariant -1 <= l < level && OpenCapture(Caps()) == OpenCapture(Caps()[..l + 1])
      {
        assert Caps()[..l + 1][l] == capture[l] && Caps()[..l + 1][..l] == Caps()[..l];
        if capture[l].len == CAP_UNFINISHED {
          return;
        }
        l := l - 1;
      }
    }
  }

  /** One step of the meaning; the point of it is to keep the rest folded. */
  lemma Unroll(src: string, pat: string, s: nat, p: nat, caps: seq<Capture>)
    requires s <= |src| && p <= |pat|
    ensures Outcomes(src, pat, s, p, caps) == Step(src, pat, s, ItemAt(pat, p), caps)
  {
  }

  lemma ShortestRun(src: string, pat: string, s: nat, p: nat, ep: nat, caps: seq<Capture>)
    requires s <= |src| && 0 < ep < |pat|
    ensures Shortest(src, pat, s, Run(src, s, pat, p, ep), ep + 1, caps) ==
      Outcomes(src, pat, s, ep + 1, caps) +
      if Fits(src, s, pat, p, ep) then Shortest(src, pat, s + 1, Run(src, s + 1, pat, p, ep), ep + 1, caps) else []
  {
  }

  lemma DeepShortestRun(src: string, pat: string, s: nat, p: nat, ep: nat, caps: seq<Capture>, d: nat)
    requires s <= |src| && 0 < ep < |pat|
    ensures DeepShortest(src, pat, s, Run(src, s, pat, p, ep), ep + 1, caps, d) <==>
      || Enters(src, pat, s, ep + 1, caps, d)
      || (Outcomes(src, pat, s, ep + 1, caps) == [] && Fits(src, s, pat, p, ep) &&
          DeepShortest(src, pat, s + 1, Run(src, s + 1, pat, p, ep), ep + 1, caps, d))
  {
    hide Outcomes, Enters;
  }

  lemma UnrollDeep(src: string, pat: string, s: nat, p: nat, caps: seq<Capture>, d: nat)
    requires s <= |src| && p <= |pat|
    ensures Deep(src, pat, s, p, caps, d) == DeepItem(src, pat, s, ItemAt(pat, p), caps, d)
    ensures Enters(src, pat, s, p, caps, d + 1) == Deep(src, pat, s, p, caps, d)
    ensures Enters(src, pat, s, p, caps, 0)
  {
  }

  /** A plain pattern gets to the default case or its end, and stays plain. */
  lemma PlainTurn(pat: string, p: nat)
    requires p <= |pat|
    ensures Plain(pat, p) ==> At(pat, p) !in "()$%" && (p < |pat| ==> Plain(pat, p + 1) && At(pat, p) != '\0')
    ensures p < |pat| && At(pat, p) !in "()%\0" && !(At(pat, p) == '$' && At(pat, p + 1) == '\0') ==>
      ItemAt(pat, p) == CharsAt(pat, p)
    ensures p < |pat| && At(pat, p) == ESC && At(pat, p + 1) !in "bf" && !IsDigit(At(pat, p + 1)) ==>
      ItemAt(pat, p) == CharsAt(pat, p)
  {
    if p < |pat| {
      PlainItem(pat, p);
    }
  }
}
