/** `string.gsub`: how the subject is cut into matches and what lies between them. */
module Gsub {
  import opened Patterns
  import opened Recursion
  import opened Matcher
  import opened CaptureFacts
  import opened Find
  import opened Numerals
  import opened Replacing

  // ----- the pieces of the subject -----

  /** A match, a character that was passed over, or the rest that was not searched. */
  datatype Piece = Sub(from: nat, to: nat, caps: seq<Capture>) | Skip(at: nat) | Rest(rest: nat)

  function Start(x: Piece): nat {
    match x
    case Sub(from, _, _) => from
    case Skip(at) => at
    case Rest(rest) => rest
  }

  function Stop(src: string, x: Piece): nat {
    match x
    case Sub(_, to, _) => to
    case Skip(at) => at + 1
    case Rest(_) => |src|
  }

  ghost predicate PieceIn(src: string, x: Piece) {
    Start(x) <= Stop(src, x) <= |src| && (x.Sub? ==> Within(src, x.caps))
  }

  /** The piece is right where it is: a match is the first outcome there, and a character is passed over only where the
      pattern does not match, or right behind an empty match. */
  ghost predicate PieceRight(src: string, pat: string, p: nat, before: seq<Piece>, x: Piece)
    requires p <= |pat| && PieceIn(src, x)
  {
    match x
    case Sub(from, to, caps) => FirstIs(src, pat, p, from, End(to, caps))
    case Skip(at) =>
      Outcomes(src, pat, at, p, []) == [] ||
        (before != [] && before[|before| - 1].Sub? && Start(before[|before| - 1]) == at)
    case Rest(_) => true
  }

  ghost predicate FirstIs(src: string, pat: string, p: nat, s: nat, x: Leaf)
    requires p <= |pat| && s <= |src|
  {
    var all := Outcomes(src, pat, s, p, []);
    all != [] && all[0] == x
  }

  /** The pieces follow each other without gap or overlap from the start of the subject to end, each right. */
  ghost predicate Cut(src: string, pat: string, p: nat, pieces: seq<Piece>, end: nat)
    requires p <= |pat|
  {
    if pieces == [] then end == 0
    else
      var x, most := pieces[|pieces| - 1], pieces[..|pieces| - 1];
      PieceIn(src, x) && Stop(src, x) == end && PieceRight(src, pat, p, most, x) && Cut(src, pat, p, most, Start(x))
  }

  ghost function PieceText(src: string, repl: Replacement, x: Piece): Result<string>
    requires PieceIn(src, x)
  {
    match x
    case Sub(from, to, caps) => Replaced(src, repl, caps, from, to)
    case _ => Ok(src[Start(x)..Stop(src, x)])
  }

  /** The output for the pieces. */
  ghost function Output(src: string, repl: Replacement, pieces: seq<Piece>): Result<string>
    requires forall x | x in pieces :: PieceIn(src, x)
  {
    if pieces == [] then Ok("")
    else
      var x, most := pieces[|pieces| - 1], pieces[..|pieces| - 1];
      match Output(src, repl, most)
      case Error(e) => Error(e)
      case Ok(out) => Before(out, PieceText(src, repl, x))
  }

  /** What stands in the output for a piece: what replaces it if it is a match, and itself otherwise. */
  ghost predicate StandsFor(src: string, repl: Replacement, x: Piece, w: string) {
    && Start(x) <= Stop(src, x) <= |src|
    && if x.Sub? then Replaces(src, repl, x.caps, x.from, x.to, Ok(w)) else w == src[Start(x)..Stop(src, x)]
  }

  /** The output is put together from what stands for the pieces. */
  ghost predicate PutTogether(src: string, repl: Replacement, pieces: seq<Piece>, out: string) {
    if pieces == [] then out == ""
    else exists w: string, before: string ::
        && StandsFor(src, repl, pieces[|pieces| - 1], w) && out == before + w
        && PutTogether(src, repl, pieces[..|pieces| - 1], before)
  }

  lemma {:induction false} OutputPut(src: string, repl: Replacement, pieces: seq<Piece>)
    requires (forall x | x in pieces :: PieceIn(src, x)) && Output(src, repl, pieces).Ok?
    ensures PutTogether(src, repl, pieces, Output(src, repl, pieces).value)
  {
    hide PieceIn, PieceText, StandsFor;
    if pieces != [] {
      var x, most := pieces[|pieces| - 1], pieces[..|pieces| - 1];
      assert x in pieces && forall y | y in most :: y in pieces;
      OutputPut(src, repl, most);
      PieceStands(src, repl, x);
    }
  }

  lemma PieceStands(src: string, repl: Replacement, x: Piece)
    requires PieceIn(src, x) && PieceText(src, repl, x).Ok?
    ensures StandsFor(src, repl, x, PieceText(src, repl, x).value)
  {
    hide Within, Replaces, Replaced;
    if x.Sub? {
      ReplacedReplaces(src, repl, x.caps, x.from, x.to);
    }
  }

  /** The subject with t in place of each match. */
  function WithText(src: string, pieces: seq<Piece>, t: string): string
    requires forall x | x in pieces :: Start(x) <= Stop(src, x) <= |src|
  {
    if pieces == [] then ""
    else
      var x := pieces[|pieces| - 1];
      WithText(src, pieces[..|pieces| - 1], t) + if x.Sub? then t else src[Start(x)..Stop(src, x)]
  }

  ghost predicate PutsText(src: string, pieces: seq<Piece>, t: string, out: string) {
    (forall x | x in pieces :: Start(x) <= Stop(src, x) <= |src|) && out == WithText(src, pieces, t)
  }

  lemma PiecesInside(src: string, pieces: seq<Piece>)
    requires forall x | x in pieces :: PieceIn(src, x)
    ensures forall x | x in pieces :: Start(x) <= Stop(src, x) <= |src|
  {
    hide Within;
  }

  lemma {:induction false} OutputSame(src: string, repl: Replacement, t: string, pieces: seq<Piece>)
    requires (forall x | x in pieces :: PieceIn(src, x)) && PutsAlways(repl, t) && Output(src, repl, pieces).Ok?
    ensures forall x | x in pieces :: Start(x) <= Stop(src, x) <= |src|
    ensures Output(src, repl, pieces).value == WithText(src, pieces, t)
  {
    hide Replaced, Within, PutsAlways;
    PiecesInside(src, pieces);
    if pieces != [] {
      var x, most := pieces[|pieces| - 1], pieces[..|pieces| - 1];
      assert x in pieces && PieceIn(src, x);
      OutputSame(src, repl, t, most);
      if x.Sub? {
        SameText(src, repl, t, x.caps, x.from, x.to);
      }
    }
  }

  function Subs(pieces: seq<Piece>): nat {
    if pieces == [] then 0
    else Subs(pieces[..|pieces| - 1]) + if pieces[|pieces| - 1].Sub? then 1 else 0
  }

  lemma {:induction false} CutIn(src: string, pat: string, p: nat, pieces: seq<Piece>, end: nat)
    requires p <= |pat| && Cut(src, pat, p, pieces, end)
    ensures end <= |src| && forall x | x in pieces :: PieceIn(src, x)
  {
    hide PieceRight, PieceIn;
    if pieces != [] {
      var x, most := pieces[|pieces| - 1], pieces[..|pieces| - 1];
      CutIn(src, pat, p, most, Start(x));
      assert pieces == most + [x];
      InBound(src, x);
    }
  }

  lemma InBound(src: string, x: Piece)
    requires PieceIn(src, x)
    ensures Start(x) <= Stop(src, x) <= |src|
  {
  }

  // ----- the implementation -----

  /** `push_onecapture` */
  method PushOne(ms: MatchState, i: nat, s: nat, e: nat) returns (r: Result<Value>)
    requires ms.Valid() && Within(ms.src, ms.Caps()) && s <= e <= |ms.src|
    ensures r == OneCapture(ms.src, ms.Caps(), i, s, e)
  {
    if i >= ms.level {
      return if i == 0 then Ok(Str(ms.src[s..e])) else Error(InvalidCaptureIndex);
    }
    assert ms.Caps()[i] == ms.capture[i] && MadeOne(ms.Caps()[i], |ms.src|);
    var v := CaptureValue(ms.src, ms.capture[i]);
    r := if v.None? then Error(UnfinishedCapture) else Ok(v.value);
  }

  /** `add_s` */
  method AddTemplate(ms: MatchState, t: string, s: nat, e: nat) returns (r: Result<string>)
    requires ms.Valid() && Within(ms.src, ms.Caps()) && s <= e <= |ms.src|
    ensures r == Fill(ms.src, t, 0, ms.Caps(), s, e)
    ensures forall parts: seq<Part> | Composed(t, 0, parts) :: Filled(ms.src, parts, ms.Caps(), s, e, r)
  {
    hide OneCapture, Within, Text, Composed, Filled;
    var i, b := 0, "";
    TemplateFilled(ms.src, t, ms.Caps(), s, e);
    NothingBefore(Fill(ms.src, t, 0, ms.Caps(), s, e));
    while i < |t|
      invariant Fill(ms.src, t, 0, ms.Caps(), s, e) == Before(b, Fill(ms.src, t, i, ms.Caps(), s, e))
      decreases |t| - i
    {
      var add := [t[i]];
      ghost var rest := Fill(ms.src, t, i, ms.Caps(), s, e);
      if t[i] == ESC {
        i := i + 1;
        var d := At(t, i);
        add := [d];
        if IsDigit(d) {
          if d == '0' {
            add := ms.src[s..e];
          } else {
            var v := PushOne(ms, d as int - '1' as int, s, e);
            if v.Error? {
              return Error(v.error);
            }
            add := Text(v.value);
          }
        }
      }
      i := i + 1;
      Joined(b, add, Fill(ms.src, t, i, ms.Caps(), s, e));
      b := b + add;
    }
    assert b + "" == b;
    r := Ok(b);
  }

  lemma TemplateFilled(src: string, t: string, caps: seq<Capture>, s: nat, e: nat)
    requires s <= e <= |src| && Within(src, caps)
    ensures forall parts: seq<Part> | Composed(t, 0, parts) ::
        Filled(src, parts, caps, s, e, Fill(src, t, 0, caps, s, e))
  {
    hide Within, Fill, Composed, Filled;
    forall parts: seq<Part> | Composed(t, 0, parts)
      ensures Filled(src, parts, caps, s, e, Fill(src, t, 0, caps, s, e))
    {
      FillParts(src, t, 0, parts, caps, s, e);
    }
  }

  lemma NothingBefore(r: Result<string>)
    ensures Before("", r) == r
  {
    if r.Ok? {
      assert "" + r.value == r.value;
    }
  }

  lemma Joined(a: string, b: string, r: Result<string>)
    ensures Before(a, Before(b, r)) == Before(a + b, r)
  {
    if r.Ok? {
      assert a + (b + r.value) == (a + b) + r.value;
    }
  }

  /** `add_value` */
  method AddValue(ms: MatchState, repl: Replacement, s: nat, e: nat) returns (r: Result<string>)
    requires ms.Valid() && Within(ms.src, ms.Caps()) && s <= e <= |ms.src|
    ensures r == Replaced(ms.src, repl, ms.Caps(), s, e) && Replaces(ms.src, repl, ms.Caps(), s, e, r)
  {
    hide OneCapture, Within, Fill, CaptureValues, Replaces, Filled, Composed;
    ReplacedReplaces(ms.src, repl, ms.Caps(), s, e);
    match repl
    case Template(t) =>
      r := AddTemplate(ms, t, s, e);
    case Function(f) =>
      var args := PushCaptures(ms, [Str(ms.src[s..e])]);
      r := if args.Error? then Error(args.error) else Chosen(ms.src[s..e], f(args.value));
    case Table(g) =>
      var key := PushOne(ms, 0, s, e);
      r := if key.Error? then Error(key.error) else Chosen(ms.src[s..e], g(key.value));
  }

  /** The error comes from the place where the pieces end: matching meets the limit of its recursion there, or the
      pattern raises the error, or its replacement does. */
  ghost predicate FailsAt(src: string, pat: string, p: nat, repl: Replacement, end: nat, err: MatchError)
    requires p <= |pat|
  {
    && end <= |src|
    && ((err == TooComplex && Enters(src, pat, end, p, [], MAX_XLEVEL)) || FirstIs(src, pat, p, end, Fault(err)) ||
        exists e: nat, caps: seq<Capture> ::
          && end <= e <= |src| && Within(src, caps) && FirstIs(src, pat, p, end, End(e, caps))
          && Replaced(src, repl, caps, end, e) == Error(err) && Replaces(src, repl, caps, end, e, Error(err)))
  }

  /** What has been done when the loop is at s with n substitutions and output b. */
  ghost predicate Done(src: string, pat: string, p: nat, repl: Replacement, pieces: seq<Piece>, s: nat, n: nat,
      b: string)
    requires p <= |pat|
  {
    && Cut(src, pat, p, pieces, s) && (forall x | x in pieces :: PieceIn(src, x))
    && Output(src, repl, pieces) == Ok(b) && Subs(pieces) == n
  }

  /** A match at s, if there is one, and its replacement. */
  method SubAt(ms: MatchState, p: nat, repl: Replacement, s: nat) returns (e: Outcome, v: string)
    requires ms.Valid() && s <= |ms.src| && p <= |ms.pat|
    modifies ms
    ensures !e.Raised? ==> ms.Valid()
    ensures e.Raised? ==> FailsAt(ms.src, ms.pat, p, repl, s, e.error)
    ensures e.Failed? ==> Outcomes(ms.src, ms.pat, s, p, []) == []
    ensures e.Found? ==>
      && s <= e.end <= |ms.src| && Within(ms.src, ms.Caps()) && FirstIs(ms.src, ms.pat, p, s, End(e.end, ms.Caps()))
      && Replaced(ms.src, repl, ms.Caps(), s, e.end) == Ok(v)
  {
    hide Outcomes, Replaced, Within, FailsAt, Enters;
    ms.level, ms.depth := 0, 0;
    assert ms.Caps() == [];
    v := "";
    e := ms.Match(s, p);
    if e.Raised? {
      RaisedHere(ms.src, ms.pat, p, repl, s, e.error);
    } else if e.Found? {
      FoundHere(ms.src, ms.pat, p, s, e.end, ms.Caps());
      var r := AddValue(ms, repl, s, e.end);
      if r.Error? {
        ReplaceFails(ms.src, ms.pat, p, repl, s, e.end, ms.Caps(), r.error);
        return Raised(r.error), v;
      }
      v := r.value;
    }
  }

  /** An anchored pattern is only tried at the start. */
  ghost predicate Anchored(p: nat, pieces: seq<Piece>) {
    p == 1 ==> forall x | x in pieces :: x.Rest? || Start(x) == 0
  }

  /** The pieces cut the subject, the output b replaces exactly the n matches among them, and there are at most as many
      as asked for, and as there are places in the subject; the rest begins at the end, or where the limit is reached,
      or behind the one place of an anchored pattern. */
  ghost predicate Substitutes(src: string, pat: string, p: nat, repl: Replacement, maxS: int, pieces: seq<Piece>,
      n: nat,
      b: string)
    requires p <= |pat|
  {
    && Done(src, pat, p, repl, pieces, |src|, n, b) && n <= |src| + 1 && (n > 0 ==> n <= maxS)
    && pieces != [] && pieces[|pieces| - 1].Rest?
    && (pieces[|pieces| - 1].rest == |src| || n >= maxS || p == 1) && Anchored(p, pieces)
    && PutTogether(src, repl, pieces, b) && forall t: string | PutsAlways(repl, t) :: PutsText(src, pieces, t, b)
  }

  /** `string.gsub` */
  method Replace(src: string, pat: string, repl: Replacement, maxS: int) returns (r: Result<(string, nat)>)
    ensures r.Ok? ==>
      var p := if At(pat, 0) == '^' then 1 else 0;
      exists pieces: seq<Piece> :: Substitutes(src, pat, p, repl, maxS, pieces, r.value.1, r.value.0)
    ensures r.Ok? && KeepsAll(repl) ==> r.value.0 == src
    ensures r.Error? ==>
      var p := if At(pat, 0) == '^' then 1 else 0;
      exists pieces: seq<Piece>, s: nat, n: nat, b: string ::
        Done(src, pat, p, repl, pieces, s, n, b) && FailsAt(src, pat, p, repl, s, r.error) && (p == 1 ==> s == 0)
  {
    hide Outcomes, Cut, Output, Subs, Done, Replaced, Within, FailsAt, Enters, Substitutes, FirstIs, KeepsAll;
    hide PieceIn, LastEmpty;
    var p := if At(pat, 0) == '^' then 1 else 0;
    var ms := new MatchState(src, pat);
    var s: nat, n: nat, b := 0, 0, "";
    ghost var pieces: seq<Piece> := [];
    NothingDone(src, pat, p, repl);
    while n < maxS
      invariant fresh(ms) && ms.Valid() && s <= |src| && n <= s && Done(src, pat, p, repl, pieces, s, n, b)
      invariant n > 0 ==> n <= maxS
      invariant p == 1 ==> s == 0 && pieces == []
      decreases |src| - s
    {
      var e, v := SubAt(ms, p, repl, s);
      if e.Raised? {
        return Error(e.error);
      }
      if e.Found? {
        SubDone(src, pat, p, repl, pieces, s, n, b, e.end, ms.Caps(), v);
        n := n + 1;
        b := b + v;
        pieces := pieces + [Sub(s, e.end, ms.Caps())];
      }
      if e.Found? && e.end > s {
        s := e.end;
      } else if s < |src| {
        SkipDone(src, pat, p, repl, pieces, s, n, b, e.Found?);
        b := b + [src[s]];
        pieces := pieces + [Skip(s)];
        s := s + 1;
      } else {
        break;
      }
      if p == 1 {
        break;
      }
    }
    assert Anchored(p, pieces);
    AllDone(src, pat, p, repl, maxS, pieces, s, n, b);
    pieces := pieces + [Rest(s)];
    r := Ok((b + src[s..], n));
  }

  lemma AllDone(src: string, pat: string, p: nat, repl: Replacement, maxS: int, pieces: seq<Piece>, s: nat, n: nat,
      b: string)
    requires p <= |pat| && s <= |src| && n <= s + 1 && (n > 0 ==> n <= maxS) && Done(src, pat, p, repl, pieces, s, n, b)
    requires (s == |src| || n >= maxS || p == 1) && Anchored(p, pieces)
    ensures Substitutes(src, pat, p, repl, maxS, pieces + [Rest(s)], n, b + src[s..])
    ensures KeepsAll(repl) ==> b + src[s..] == src
  {
    hide Done;
    RestDone(src, pat, p, repl, pieces, s, n, b);
    DoneMeans(src, pat, p, repl, pieces + [Rest(s)], n, b + src[s..]);
  }

  lemma NothingDone(src: string, pat: string, p: nat, repl: Replacement)
    requires p <= |pat|
    ensures Done(src, pat, p, repl, [], 0, 0, "")
  {
  }

  lemma FoundHere(src: string, pat: string, p: nat, s: nat, e: nat, caps: seq<Capture>)
    requires p <= |pat| && s <= |src| && FirstIs(src, pat, p, s, End(e, caps))
    ensures s <= e <= |src| && Within(src, caps)
  {
    hide Outcomes;
    CapturesGood(src, pat, s, p, [], End(e, caps));
    assert forall k | 0 <= k < |caps| :: MadeOne(caps[k], e);
  }

  lemma RaisedHere(src: string, pat: string, p: nat, repl: Replacement, s: nat, err: MatchError)
    requires p <= |pat| && s <= |src|
    requires (err == TooComplex && Enters(src, pat, s, p, [], MAX_XLEVEL)) || FirstIs(src, pat, p, s, Fault(err))
    ensures FailsAt(src, pat, p, repl, s, err)
  {
    hide Outcomes, Replaced, Within;
  }

  lemma ReplaceFails(src: string, pat: string, p: nat, repl: Replacement, s: nat, e: nat, caps: seq<Capture>,
      err: MatchError)
    requires p <= |pat| && s <= e <= |src| && FirstIs(src, pat, p, s, End(e, caps)) && Within(src, caps)
    requires Replaced(src, repl, caps, s, e) == Error(err)
    ensures FailsAt(src, pat, p, repl, s, err)
  {
    hide Outcomes, Replaced, Replaces, Within, FirstIs;
    ReplacedReplaces(src, repl, caps, s, e);
  }

  lemma OneMoreDone(src: string, pat: string, p: nat, repl: Replacement, pieces: seq<Piece>, s: nat, n: nat, b: string,
      x: Piece, add: string)
    requires p <= |pat| && Done(src, pat, p, repl, pieces, s, n, b)
    requires PieceIn(src, x) && Start(x) == s && PieceRight(src, pat, p, pieces, x) &&
      PieceText(src, repl, x) == Ok(add)
    ensures Done(src, pat, p, repl, pieces + [x], Stop(src, x), n + if x.Sub? then 1 else 0, b + add)
  {
    hide Outcomes, Replaced, Within, PieceRight, PieceText, PieceIn;
    var all := pieces + [x];
    assert all[..|all| - 1] == pieces && all[|all| - 1] == x;
  }

  lemma SubDone(src: string, pat: string, p: nat, repl: Replacement, pieces: seq<Piece>, s: nat, n: nat, b: string,
      e: nat,
      caps: seq<Capture>, add: string)
    requires p <= |pat| && s <= e <= |src| && Within(src, caps) && Done(src, pat, p, repl, pieces, s, n, b)
    requires FirstIs(src, pat, p, s, End(e, caps)) && Replaced(src, repl, caps, s, e) == Ok(add)
    ensures Done(src, pat, p, repl, pieces + [Sub(s, e, caps)], e, n + 1, b + add)
    ensures s == e ==> LastEmpty(pieces + [Sub(s, e, caps)], s)
  {
    hide Outcomes, Replaced, Within, Done, FirstIs;
    OneMoreDone(src, pat, p, repl, pieces, s, n, b, Sub(s, e, caps), add);
  }

  ghost predicate LastEmpty(pieces: seq<Piece>, s: nat) {
    pieces != [] && pieces[|pieces| - 1].Sub? && Start(pieces[|pieces| - 1]) == s
  }

  lemma SkipDone(src: string, pat: string, p: nat, repl: Replacement, pieces: seq<Piece>, s: nat, n: nat, b: string,
      found: bool)
    requires p <= |pat| && s < |src| && Done(src, pat, p, repl, pieces, s, n, b)
    requires if found then LastEmpty(pieces, s) else Outcomes(src, pat, s, p, []) == []
    ensures Done(src, pat, p, repl, pieces + [Skip(s)], s + 1, n, b + [src[s]])
  {
    hide Outcomes, Replaced, Within, Done;
    assert src[s..s + 1] == [src[s]];
    OneMoreDone(src, pat, p, repl, pieces, s, n, b, Skip(s), [src[s]]);
  }

  lemma RestDone(src: string, pat: string, p: nat, repl: Replacement, pieces: seq<Piece>, s: nat, n: nat, b: string)
    requires p <= |pat| && s <= |src| && Done(src, pat, p, repl, pieces, s, n, b)
    ensures Done(src, pat, p, repl, pieces + [Rest(s)], |src|, n, b + src[s..])
  {
    hide Outcomes, Replaced, Within, Done;
    assert src[s..|src|] == src[s..];
    OneMoreDone(src, pat, p, repl, pieces, s, n, b, Rest(s), src[s..]);
  }

  // ----- the identity -----

  /** Replacing every match by itself leaves the subject as it is. */
  lemma {:induction false} Identity(src: string, pat: string, p: nat, repl: Replacement, pieces: seq<Piece>, s: nat)
    requires p <= |pat| && Cut(src, pat, p, pieces, s) && KeepsAll(repl)
    ensures s <= |src| && forall x | x in pieces :: PieceIn(src, x)
    ensures Output(src, repl, pieces).Ok? ==> Output(src, repl, pieces).value == src[..s]
    ensures repl.Template? ==> Output(src, repl, pieces).Ok?
  {
    hide PieceRight, Within, PieceText, PieceIn, KeepsAll;
    CutIn(src, pat, p, pieces, s);
    if pieces != [] {
      var x, most := pieces[|pieces| - 1], pieces[..|pieces| - 1];
      Identity(src, pat, p, repl, most, Start(x));
      InBound(src, x);
      PieceItself(src, repl, x);
      assert src[..Start(x)] + src[Start(x)..Stop(src, x)] == src[..Stop(src, x)];
    }
  }

  lemma PieceItself(src: string, repl: Replacement, x: Piece)
    requires PieceIn(src, x) && KeepsAll(repl)
    ensures PieceText(src, repl, x).Ok? ==> PieceText(src, repl, x).value == src[Start(x)..Stop(src, x)]
    ensures repl.Template? ==> PieceText(src, repl, x).Ok?
  {
    hide Within, Fill;
    if x.Sub? {
      if PieceText(src, repl, x).Ok? {
        KeptText(src, repl, x.caps, x.from, x.to);
      }
      if repl.Template? {
        WholeFills(src, x.caps, x.from, x.to);
      }
    }
  }

  lemma WholeFills(src: string, caps: seq<Capture>, s: nat, e: nat)
    requires s <= e <= |src| && Within(src, caps)
    ensures Fill(src, "%0", 0, caps, s, e).Ok?
  {
    hide Within;
    assert Fill(src, "%0", 2, caps, s, e) == Ok("");
  }

  /** What the output is, said of the pieces alone. */
  lemma DoneMeans(src: string, pat: string, p: nat, repl: Replacement, pieces: seq<Piece>, n: nat, b: string)
    requires p <= |pat| && Done(src, pat, p, repl, pieces, |src|, n, b)
    ensures KeepsAll(repl) ==> b == src
    ensures PutTogether(src, repl, pieces, b)
    ensures forall t: string | PutsAlways(repl, t) :: PutsText(src, pieces, t, b)
  {
    hide Cut, Output, PieceIn, KeepsAll, PutsAlways;
    if KeepsAll(repl) {
      Identity(src, pat, p, repl, pieces, |src|);
      assert src[..|src|] == src;
    }
    OutputPut(src, repl, pieces);
    forall t: string | PutsAlways(repl, t)
      ensures PutsText(src, pieces, t, b)
    {
      OutputSame(src, repl, t, pieces);
    }
  }
}
