/** `string.find` and `string.match`: the plain search, the search by matching, and when the two agree. */
module Find {
  import opened Common
  import opened Patterns
  import opened Recursion
  import opened Matcher
  import opened PatternMeaning
  import opened CaptureFacts

  datatype Value = Nil | Num(n: int) | Str(s: string) | Other

  /** What a library function returns, or the error it raises. */
  datatype Result<T> = Ok(value: T) | Error(error: MatchError)

  // ----- plain search -----

  predicate OccursAt(t: string, q: string, i: nat) {
    i + |q| <= |t| && t[i..i + |q|] == q
  }

  /** i is the first place where q occurs in t; -1 says that it does not occur. */
  ghost predicate FirstAt(t: string, q: string, i: int) {
    if i < 0 then forall j: nat :: !OccursAt(t, q, j)
    else OccursAt(t, q, i) && forall j: nat | j < i :: !OccursAt(t, q, j)
  }

  /** `memchr` on n characters */
  method MemChr(t: string, from: nat, n: nat, c: char) returns (k: int)
    requires from + n <= |t|
    ensures k < 0 ==> forall j | from <= j < from + n :: t[j] != c
    ensures k >= 0 ==> from <= k < from + n && t[k] == c && forall j | from <= j < k :: t[j] != c
  {
    k := from;
    while k < from + n
      invariant from <= k <= from + n
      invariant forall j | from <= j < k :: t[j] != c
    {
      if t[k] == c {
        return;
      }
      k := k + 1;
    }
    k := -1;
  }

  /** An occurrence, by its first character and the rest. */
  lemma OccursParts(t: string, q: string, j: nat)
    requires q != ""
    ensures OccursAt(t, q, j) <==> j + |q| <= |t| && t[j] == q[0] && t[j + 1..j + |q|] == q[1..]
  {
    if j + |q| <= |t| {
      assert t[j..j + |q|] == [t[j]] + t[j + 1..j + |q|] && q == [q[0]] + q[1..];
    }
  }

  /** Where the first character is not found, nothing occurs. */
  lemma OccursNot(t: string, q: string, at: nat, end: nat)
    requires q != "" && end <= |t| && forall j | at <= j < end :: t[j] != q[0]
    ensures forall j: nat | at <= j < end :: !OccursAt(t, q, j)
  {
    hide OccursAt;
    forall j: nat | at <= j < end
      ensures !OccursAt(t, q, j)
    {
      OccursParts(t, q, j);
    }
  }

  lemma OccursInside(t: string, q: string)
    ensures forall j: nat | OccursAt(t, q, j) :: j + |q| <= |t|
    ensures q == "" ==> OccursAt(t, q, 0)
  {
  }

  /** `lmemfind` */
  method MemFind(t: string, q: string) returns (i: int)
    ensures FirstAt(t, q, i)
  {
    hide OccursAt;
    OccursInside(t, q);
    if |q| == 0 {
      return 0;
    } else if |q| > |t| {
      return -1;
    }
    var l2 := |q| - 1;
    var at, l1 := 0, |t| - l2;
    while l1 > 0
      invariant 0 <= at && 0 <= l1 && at + l1 == |t| - l2
      invariant forall j: nat | j < at :: !OccursAt(t, q, j)
      decreases l1
    {
      var init := MemChr(t, at, l1, q[0]);
      if init < 0 {
        OccursNot(t, q, at, at + l1);
        return -1;
      }
      OccursNot(t, q, at, init);
      OccursParts(t, q, init);
      init := init + 1;
      if t[init..init + l2] == q[1..] {
        return init - 1;
      }
      l1 := l1 - (init - at);
      at := init;
    }
    i := -1;
  }

  // ----- search by matching -----

  /** The first place from s on at which the pattern matches, or raises an error, with what happens there. */
  ghost function Search(src: string, pat: string, p: nat, s: nat, anchor: bool): (r: (int, Leaf))
    requires s <= |src| && p <= |pat|
    ensures r.0 == -1 || (s <= r.0 <= |src| && Outcomes(src, pat, r.0, p, []) != [])
    decreases |src| - s
  {
    var all := Outcomes(src, pat, s, p, []);
    if all != [] then (s, all[0])
    else if s < |src| && !anchor then Search(src, pat, p, s + 1, anchor)
    else (-1, End(0, []))
  }

  /** The search from s on meets the limit of the recursion before it finds a match or another error. */
  ghost predicate SearchDeep(src: string, pat: string, p: nat, s: nat, anchor: bool)
    requires s <= |src| && p <= |pat|
    decreases |src| - s
  {
    || Enters(src, pat, s, p, [], MAX_XLEVEL)
    || (Outcomes(src, pat, s, p, []) == [] && s < |src| && !anchor && SearchDeep(src, pat, p, s + 1, anchor))
  }

  /** Patterns with fewer recursing items than levels never meet it. */
  lemma {:induction false} SearchNotDeep(src: string, pat: string, p: nat, s: nat, anchor: bool)
    requires s <= |src| && p <= |pat| && Nesting(pat, p) < MAX_XLEVEL
    ensures !SearchDeep(src, pat, p, s, anchor)
    decreases |src| - s
  {
    hide Outcomes, Deep, Nesting;
    NestingSuffices(src, pat, s, p, [], MAX_XLEVEL - 1);
    if s < |src| {
      SearchNotDeep(src, pat, p, s + 1, anchor);
    }
  }

  /** The value of a capture; None stands for an unfinished one. */
  function CaptureValue(src: string, c: Capture): Option<Value>
    requires c.len >= 0 ==> c.init + c.len <= |src|
  {
    if c.len == CAP_UNFINISHED then None
    else if c.len == CAP_POSITION then Some(Num(c.init + 1))
    else if c.len >= 0 then Some(Str(src[c.init..c.init + c.len]))
    else None
  }

  /** All captures lie in the subject. */
  ghost predicate Within(src: string, caps: seq<Capture>) {
    |caps| <= MAX_CAPTURES && forall k | 0 <= k < |caps| :: MadeOne(caps[k], |src|)
  }

  ghost function CaptureValues(src: string, caps: seq<Capture>): Result<seq<Value>>
    requires Within(src, caps)
  {
    if caps == [] then Ok([])
    else
      assert MadeOne(caps[|caps| - 1], |src|);
      assert Within(src, caps[..|caps| - 1]);
      match CaptureValues(src, caps[..|caps| - 1])
      case Error(e) => Error(e)
      case Ok(vs) =>
        match CaptureValue(src, caps[|caps| - 1]) {
          case None => Error(UnfinishedCapture)
          case Some(v) => Ok(vs + [v])
        }
  }

  /** `push_captures`; whole is what is pushed if there are no captures. */
  method PushCaptures(ms: MatchState, whole: seq<Value>) returns (r: Result<seq<Value>>)
    requires ms.Valid() && Within(ms.src, ms.Caps())
    ensures r == if ms.level == 0 then Ok(whole) else CaptureValues(ms.src, ms.Caps())
  {
    if ms.level == 0 {
      return Ok(whole);
    }
    var vs: seq<Value> := [];
    var i := 0;
    while i < ms.level
      invariant 0 <= i <= ms.level && Within(ms.src, ms.Caps()[..i])
      invariant CaptureValues(ms.src, ms.Caps()[..i]) == Ok(vs)
    {
      var caps := ms.capture;
      assert ms.Caps()[i] == caps[i] && MadeOne(caps[i], |ms.src|);
      assert ms.Caps()[..i + 1][..i] == ms.Caps()[..i] && ms.Caps()[..i + 1][i] == caps[i];
      var v := CaptureValue(ms.src, caps[i]);
      if v.None? {
        ErrorStays(ms.src, ms.Caps(), i + 1);
        return Error(UnfinishedCapture);
      }
      vs := vs + [v.value];
      i := i + 1;
    }
    assert ms.Caps()[..i] == ms.Caps();
    r := Ok(vs);
  }

  lemma {:induction false} ErrorStays(src: string, caps: seq<Capture>, i: nat)
    requires Within(src, caps) && 0 < i <= |caps| && Within(src, caps[..i])
    requires CaptureValues(src, caps[..i]) == Error(UnfinishedCapture)
    ensures CaptureValues(src, caps) == Error(UnfinishedCapture)
    decreases |caps|
  {
    if i < |caps| {
      var most := caps[..|caps| - 1];
      assert Within(src, most) && most[..i] == caps[..i];
      ErrorStays(src, most, i);
    } else {
      assert caps[..i] == caps;
    }
  }

  /** `posrelat` */
  function PosRelat(pos: int, len: nat): nat {
    var p := if pos < 0 then pos + len + 1 else pos;
    if p >= 0 then p else 0
  }

  /** Where the search starts. */
  function StartOf(pos: int, len: nat): (init: nat)
    ensures init <= len
  {
    var i := PosRelat(pos, len) - 1;
    if i < 0 then 0 else if i > len then len else i
  }

  /** Places are counted from 1, or backwards from the end; a search from place pos on looks at all from it on, at most
      at the whole subject and at least at its end. */
  lemma StartMeans(pos: int, len: nat)
    ensures pos >= 1 ==> StartOf(pos, len) == if pos - 1 <= len then pos - 1 else len
    ensures pos < 0 ==> len - StartOf(pos, len) == if -pos <= len then -pos else len
    ensures pos == 0 ==> StartOf(pos, len) == 0
  {
  }

  /** `strpbrk(p, SPECIALS) == NULL`: no special character up to the first NUL. */
  predicate NoSpecials(pat: string, i: nat)
    decreases |pat| - i
  {
    At(pat, i) == '\0' || (pat[i] !in SPECIALS && NoSpecials(pat, i + 1))
  }

  /** There is no NUL from i to k. */
  ghost predicate InText(pat: string, i: nat, k: nat) {
    k < |pat| && forall j | i <= j <= k :: pat[j] != '\0'
  }

  lemma {:induction false} NoSpecialsMeans(pat: string, i: nat)
    requires i <= |pat|
    ensures NoSpecials(pat, i) <==> forall k: nat | i <= k && InText(pat, i, k) :: pat[k] !in "^$*+?.([%-"
    decreases |pat| - i
  {
    if At(pat, i) != '\0' {
      NoSpecialsMeans(pat, i + 1);
      forall k: nat | i < k
        ensures InText(pat, i, k) <==> InText(pat, i + 1, k)
      {
      }
      assert InText(pat, i, i);
    } else {
      assert forall k: nat | i <= k :: !InText(pat, i, k);
    }
  }

  method HasNoSpecials(pat: string) returns (b: bool)
    ensures b == NoSpecials(pat, 0)
  {
    var i := 0;
    while At(pat, i) != '\0'
      invariant NoSpecials(pat, 0) == NoSpecials(pat, i)
      decreases |pat| - i
    {
      if pat[i] in SPECIALS {
        return false;
      }
      i := i + 1;
    }
    b := true;
  }

  /** What the search by matching returns. */
  ghost function FoundValues(src: string, find: bool, at: (int, Leaf)): Result<seq<Value>>
    requires at.0 >= 0 && at.1.End? ==> at.0 <= at.1.end <= |src| && Within(src, at.1.caps)
  {
    if at.0 < 0 then Ok([Nil])
    else if at.1.Fault? then Error(at.1.error)
    else
      var e, caps := at.1.end, at.1.caps;
      var vs := if caps == [] then Ok(if find then [] else [Str(src[at.0..e])]) else CaptureValues(src, caps);
      if find && vs.Ok? then Ok([Num(at.0 + 1), Num(e)] + vs.value) else vs
  }

  // ----- what is returned, said of the subject alone -----

  /** The value of a capture: the text that it encloses, or its place, counted from 1. */
  ghost predicate Encloses(src: string, c: Capture, v: Value) {
    || (c.len == CAP_POSITION && v == Num(c.init + 1))
    || (v.Str? && c.len == |v.s| && OccursAt(src, v.s, c.init))
  }

  ghost predicate EnclosesAll(src: string, caps: seq<Capture>, vs: seq<Value>) {
    |vs| == |caps| && forall k | 0 <= k < |vs| :: Encloses(src, caps[k], vs[k])
  }

  ghost predicate Unfinished(caps: seq<Capture>) {
    exists k :: 0 <= k < |caps| && caps[k].len == CAP_UNFINISHED
  }

  /** What is returned when x is met at i: an error, or the values of the captures, or the text matched if there are
      none; `find` returns the first and last place of the match before the captures. */
  ghost predicate Returns(src: string, find: bool, i: nat, x: Leaf, r: Result<seq<Value>>) {
    match x
    case Fault(e) => r == Error(e)
    case End(e, caps) =>
      if Unfinished(caps) then r == Error(UnfinishedCapture)
      else
        && r.Ok? && i <= e <= |src|
        && exists vs: seq<Value> ::
             CapturesGive(src, find, i, e, caps, vs) && r.value == (if find then [Num(i + 1), Num(e)] else []) + vs
  }

  ghost predicate CapturesGive(src: string, find: bool, i: nat, e: nat, caps: seq<Capture>, vs: seq<Value>) {
    if caps != [] then EnclosesAll(src, caps, vs)
    else if find then vs == []
    else EnclosesAll(src, [Capture(i, e - i)], vs)
  }

  /** The pattern meets nothing before i, and x is what it meets first at i. */
  ghost predicate MeetsAt(src: string, pat: string, p: nat, init: nat, anchor: bool, i: nat, x: Leaf)
    requires p <= |pat|
  {
    && init <= i <= |src| && (anchor ==> i == init) && Best(src, pat, i, p, [], x)
    && forall j: nat | init <= j < i :: Stuck(src, pat, j, p, [])
  }

  ghost predicate MeetsNothing(src: string, pat: string, p: nat, init: nat, anchor: bool)
    requires p <= |pat|
  {
    forall j: nat | init <= j <= |src| && (anchor ==> j == init) :: Stuck(src, pat, j, p, [])
  }

  /** What a search from init on returns. */
  ghost predicate Answers(src: string, pat: string, p: nat, init: nat, anchor: bool, find: bool, r: Result<seq<Value>>)
    requires p <= |pat|
  {
    || (MeetsNothing(src, pat, p, init, anchor) && r == Ok([Nil]))
    || exists i: nat, x: Leaf :: MeetsAt(src, pat, p, init, anchor, i, x) && Returns(src, find, i, x, r)
  }

  lemma {:induction false} SearchMeets(src: string, pat: string, p: nat, s: nat, anchor: bool)
    requires s <= |src| && p <= |pat|
    ensures var at := Search(src, pat, p, s, anchor);
      if at.0 < 0 then MeetsNothing(src, pat, p, s, anchor) else MeetsAt(src, pat, p, s, anchor, at.0, at.1)
    decreases |src| - s
  {
    hide Outcomes, Best, Stuck;
    var all := Outcomes(src, pat, s, p, []);
    StuckIs(src, pat, s, p, []);
    if all != [] {
      BestFirst(src, pat, s, p, [], all[0]);
    } else if s < |src| && !anchor {
      SearchMeets(src, pat, p, s + 1, anchor);
    }
  }

  lemma EnclosesValue(src: string, c: Capture)
    requires MadeOne(c, |src|)
    ensures if c.len == CAP_UNFINISHED then CaptureValue(src, c) == None
      else CaptureValue(src, c).Some? && Encloses(src, c, CaptureValue(src, c).value)
  {
    if c.len >= 0 {
      assert |src[c.init..c.init + c.len]| == c.len;
    }
  }

  lemma {:induction false} ValuesEnclosed(src: string, caps: seq<Capture>)
    requires Within(src, caps)
    ensures if Unfinished(caps) then CaptureValues(src, caps) == Error(UnfinishedCapture)
      else CaptureValues(src, caps).Ok? && EnclosesAll(src, caps, CaptureValues(src, caps).value)
    decreases |caps|
  {
    hide CaptureValue, Encloses;
    if caps != [] {
      var c, most := caps[|caps| - 1], caps[..|caps| - 1];
      assert MadeOne(c, |src|) && Within(src, most);
      ValuesEnclosed(src, most);
      EnclosesValue(src, c);
      assert Unfinished(caps) <==> Unfinished(most) || c.len == CAP_UNFINISHED by {
        if Unfinished(most) {
          var k :| 0 <= k < |most| && most[k].len == CAP_UNFINISHED;
          assert caps[k].len == CAP_UNFINISHED;
        }
        if Unfinished(caps) && c.len != CAP_UNFINISHED {
          var k :| 0 <= k < |caps| && caps[k].len == CAP_UNFINISHED;
          assert most[k].len == CAP_UNFINISHED;
        }
      }
    }
  }

  lemma FoundReturns(src: string, find: bool, at: (int, Leaf))
    requires at.0 >= 0 && SearchIn(src, at)
    ensures Returns(src, find, at.0, at.1, FoundValues(src, find, at))
  {
    hide CaptureValues, Encloses, Unfinished;
    if at.1.End? {
      var i, e, caps := at.0, at.1.end, at.1.caps;
      ValuesEnclosed(src, caps);
      if caps == [] {
        WholeText(src, i, e, caps);
        var vs: seq<Value> := if find then [] else [Str(src[i..e])];
        assert CapturesGive(src, find, i, e, caps, vs);
        assert FoundValues(src, find, at).value == (if find then [Num(i + 1), Num(e)] else []) + vs;
      } else if !Unfinished(caps) {
        var vs := CaptureValues(src, caps).value;
        assert CapturesGive(src, find, i, e, caps, vs);
        assert FoundValues(src, find, at).value == (if find then [Num(i + 1), Num(e)] else []) + vs;
      }
    }
  }

  lemma WholeText(src: string, i: nat, e: nat, caps: seq<Capture>)
    requires i <= e <= |src| && caps == []
    ensures EnclosesAll(src, [Capture(i, e - i)], [Str(src[i..e])]) && !Unfinished(caps)
  {
  }

  /** The values that the search by matching returns are those that the subject alone calls for. */
  lemma FoundAnswers(src: string, pat: string, p: nat, init: nat, anchor: bool, find: bool)
    requires init <= |src| && p <= |pat|
    ensures var at := Search(src, pat, p, init, anchor);
      SearchIn(src, at) && Answers(src, pat, p, init, anchor, find, FoundValues(src, find, at))
  {
    hide Search, MeetsAt, MeetsNothing, Returns, Within;
    var at := Search(src, pat, p, init, anchor);
    SearchGood(src, pat, p, init, anchor);
    SearchMeets(src, pat, p, init, anchor);
    if at.0 >= 0 {
      FoundReturns(src, find, at);
      assert MeetsAt(src, pat, p, init, anchor, at.0, at.1);
    }
  }

  /** The captures of a match found lie in the subject. */
  lemma {:induction false} SearchGood(src: string, pat: string, p: nat, s: nat, anchor: bool)
    requires s <= |src| && p <= |pat|
    ensures var at := Search(src, pat, p, s, anchor);
      at.0 >= 0 && at.1.End? ==> at.0 <= at.1.end <= |src| && Within(src, at.1.caps)
    decreases |src| - s
  {
    hide Outcomes;
    var all := Outcomes(src, pat, s, p, []);
    if all != [] {
      if all[0].End? {
        CapturesGood(src, pat, s, p, [], all[0]);
        assert forall k | 0 <= k < |all[0].caps| :: MadeOne(all[0].caps[k], all[0].end);
      }
    } else if s < |src| && !anchor {
      SearchGood(src, pat, p, s + 1, anchor);
    }
  }

  /** `str_find_aux`. The search by matching may also give up on a pattern that is too complex. */
  method StrFind(src: string, pat: string, pos: int, find: bool, plain: bool) returns (r: Result<seq<Value>>)
    ensures find && (plain || NoSpecials(pat, 0)) ==>
      exists i: int ::
        && FirstAt(src[StartOf(pos, |src|)..], pat, i)
        && r == Ok(if i < 0 then [Nil] else [Num(StartOf(pos, |src|) + i + 1), Num(StartOf(pos, |src|) + i + |pat|)])
    ensures !(find && (plain || NoSpecials(pat, 0))) ==>
      var p := if At(pat, 0) == '^' then 1 else 0;
      var at := Search(src, pat, p, StartOf(pos, |src|), p == 1);
      if SearchDeep(src, pat, p, StartOf(pos, |src|), p == 1) then r == Error(TooComplex)
      else
        && SearchIn(src, at) && r == FoundValues(src, find, at)
        && Answers(src, pat, p, StartOf(pos, |src|), p == 1, find, r)
  {
    hide Outcomes, Search, SearchDeep, CaptureValues, NoSpecials, OccursAt, Answers, FoundValues, SearchIn;
    var init := StartOf(pos, |src|);
    var easy := plain;
    if find && !plain {
      easy := HasNoSpecials(pat);
    }
    if find && easy {
      var i := MemFind(src[init..], pat);
      return Ok(if i < 0 then [Nil] else [Num(init + i + 1), Num(init + i + |pat|)]);
    }
    var p := if At(pat, 0) == '^' then 1 else 0;
    FoundAnswers(src, pat, p, init, p == 1, find);
    r := ScanFor(src, pat, p, init, p == 1, find);
  }

  ghost predicate SearchIn(src: string, at: (int, Leaf)) {
    at.0 >= 0 && at.1.End? ==> at.0 <= at.1.end <= |src| && Within(src, at.1.caps)
  }

  /** The search by matching in `str_find_aux`. */
  method ScanFor(src: string, pat: string, p: nat, init: nat, anchor: bool, find: bool) returns (r: Result<seq<Value>>)
    requires init <= |src| && p <= |pat|
    ensures var at := Search(src, pat, p, init, anchor);
      if SearchDeep(src, pat, p, init, anchor) then r == Error(TooComplex)
      else SearchIn(src, at) && r == FoundValues(src, find, at)
  {
    hide Outcomes, CaptureValues, Enters;
    SearchGood(src, pat, p, init, anchor);
    var ms := new MatchState(src, pat);
    var s: nat := init;
    while true
      invariant s <= |src| && ms.Valid() && Search(src, pat, p, init, anchor) == Search(src, pat, p, s, anchor)
      invariant fresh(ms)
      invariant SearchDeep(src, pat, p, init, anchor) == SearchDeep(src, pat, p, s, anchor)
      decreases |src| - s
    {
      ms.level, ms.depth := 0, 0;
      assert ms.Caps() == [];
      var res := ms.Match(s, p);
      if res.Raised? {
        return Error(res.error);
      } else if res.Found? {
        var whole := if find then [] else [Str(src[s..res.end])];
        var vs := PushCaptures(ms, whole);
        if vs.Ok? && find {
          vs := Ok([Num(s + 1), Num(res.end)] + vs.value);
        }
        return vs;
      }
      if s >= |src| || anchor {
        break;
      }
      s := s + 1;
    }
    r := Ok([Nil]);
  }

  // ----- the fast path -----

  /** A plain pattern matches at s if and only if it occurs there. */
  lemma {:induction false} PlainOutcomes(src: string, pat: string, s: nat, p: nat)
    requires s <= |src| && p <= |pat| && Plain(pat, p)
    ensures Outcomes(src, pat, s, p, []) == if OccursAt(src, pat[p..], s) then [End(s + |pat| - p, [])] else []
    decreases |pat| - p
  {
    hide ItemAt, Step;
    if p == |pat| {
      assert pat[p..] == "" && src[s..s] == "";
      FinishStep(src, pat, s);
    } else {
      PlainItem(pat, p);
      PlainStep(src, pat, s, p);
      assert pat[p..] == [pat[p]] + pat[p + 1..];
      if s < |src| {
        PlainOutcomes(src, pat, s + 1, p + 1);
        OccursNext(src, pat[p..], s);
      }
    }
  }

  lemma OccursNext(t: string, q: string, s: nat)
    requires s < |t| && q != ""
    ensures OccursAt(t, q, s) <==> t[s] == q[0] && OccursAt(t, q[1..], s + 1)
  {
    if s + |q| <= |t| {
      assert t[s..s + |q|] == [t[s]] + t[s + 1..s + |q|] && q == [q[0]] + q[1..];
      assert t[s..s + |q|][1..] == t[s + 1..s + |q|];
    }
  }

  lemma FinishStep(src: string, pat: string, s: nat)
    requires s <= |src|
    ensures ItemAt(pat, |pat|) == Finish && Step(src, pat, s, Finish, []) == [End(s, [])]
  {
  }

  lemma PlainStep(src: string, pat: string, s: nat, p: nat)
    requires s <= |src| && p < |pat| && Plain(pat, p) && ItemAt(pat, p) == Chars(p, p + 1, Once, p + 1)
    ensures Step(src, pat, s, ItemAt(pat, p), []) ==
      if s < |src| && src[s] == pat[p] then Outcomes(src, pat, s + 1, p + 1, []) else []
  {
    hide ItemAt, Outcomes;
    assert pat[p] !in SPECIALS;
  }

  /** For plain patterns, the search by matching finds exactly what the plain search finds, and never raises an
      error. */
  lemma {:induction false} FastPath(src: string, pat: string, s: nat, i: int)
    requires s <= |src| && Plain(pat, 0) && (i < 0 || i >= s)
    requires forall j: nat | s <= j && (i < 0 || j < i) :: !OccursAt(src, pat, j)
    requires i >= 0 ==> OccursAt(src, pat, i)
    ensures Search(src, pat, 0, s, false) == if i < 0 then (-1, End(0, [])) else (i, End(i + |pat|, []))
    decreases |src| - s
  {
    hide Outcomes, OccursAt;
    PlainOutcomes(src, pat, s, 0);
    assert pat[0..] == pat;
    if i >= 0 {
      OccursIn(src, pat, i);
    }
    if i != s && s < |src| {
      FastPath(src, pat, s + 1, i);
    }
  }

  lemma OccursIn(t: string, q: string, i: nat)
    requires OccursAt(t, q, i)
    ensures i + |q| <= |t|
  {
  }

  /** Wherever the plain search finds its first occurrence from init on, the search by matching returns the same
      values. */
  ghost predicate SameValues(src: string, pat: string, init: nat)
    requires init <= |src|
  {
    forall i: int | FirstAt(src[init..], pat, i) ::
      && SearchIn(src, Search(src, pat, 0, init, false))
      && FoundValues(src, true, Search(src, pat, 0, init, false)) ==
        Ok(if i < 0 then [Nil] else [Num(init + i + 1), Num(init + i + |pat|)])
  }

  /** Both searches on the same arguments return the same values. */
  lemma SearchesAgree(src: string, pat: string, init: nat, i: int)
    requires init <= |src| && Plain(pat, 0) && FirstAt(src[init..], pat, i)
    ensures var at := Search(src, pat, 0, init, false);
      && SearchIn(src, at)
      && FoundValues(src, true, at) == Ok(if i < 0 then [Nil] else [Num(init + i + 1), Num(init + i + |pat|)])
  {
    hide Outcomes, Search, OccursAt, FirstAt, FoundValues, SearchIn, Within;
    FirstShift(src, pat, init, i);
    FastPath(src, pat, init, if i < 0 then -1 else init + i);
    FoundPlain(src, if i < 0 then 0 else init + i, if i < 0 then 0 else |pat|);
  }

  lemma FoundPlain(src: string, i: nat, n: nat)
    requires i + n <= |src|
    ensures SearchIn(src, (i, End(i + n, []))) &&
      FoundValues(src, true, (i, End(i + n, []))) == Ok([Num(i + 1), Num(i + n)])
    ensures SearchIn(src, (-1, End(0, []))) && FoundValues(src, true, (-1, End(0, []))) == Ok([Nil])
  {
    hide CaptureValues;
    assert [Num(i + 1), Num(i + n)] + [] == [Num(i + 1), Num(i + n)];
  }

  lemma FirstShift(src: string, pat: string, init: nat, i: int)
    requires init <= |src| && FirstAt(src[init..], pat, i)
    ensures forall j: nat | init <= j && (i < 0 || j < init + i) :: !OccursAt(src, pat, j)
    ensures i >= 0 ==> OccursAt(src, pat, init + i) && init + i + |pat| <= |src|
  {
    hide OccursAt;
    forall j: nat | init <= j && (i < 0 || j < init + i)
      ensures !OccursAt(src, pat, j)
    {
      OccursShift(src, pat, init, j - init);
      assert !OccursAt(src[init..], pat, j - init);
    }
    if i >= 0 {
      OccursShift(src, pat, init, i);
      OccursIn(src, pat, init + i);
    }
  }

  lemma OccursShift(t: string, q: string, a: nat, j: nat)
    requires a <= |t|
    ensures OccursAt(t[a..], q, j) <==> OccursAt(t, q, a + j)
  {
    if a + j + |q| <= |t| {
      assert t[a..][j..j + |q|] == t[a + j..a + j + |q|];
    }
  }

  /** Up to the first closing parenthesis or NUL, a pattern without special characters matches itself. */
  lemma {:induction false} SelfMatch(pat: string, p: nat) returns (k: nat)
    requires p <= |pat| && NoSpecials(pat, p)
    ensures p <= k <= |pat| && (At(pat, k) == ')' || At(pat, k) == '\0')
    ensures Outcomes(pat, pat, p, p, []) == Outcomes(pat, pat, k, k, [])
    ensures Plain(pat, p) <==> k == |pat|
    decreases |pat| - p
  {
    hide ItemAt, Step;
    if At(pat, p) == ')' || At(pat, p) == '\0' {
      k := p;
    } else {
      SelfStep(pat, p);
      k := SelfMatch(pat, p + 1);
      PlainSplit(pat, p);
    }
  }

  lemma PlainSplit(pat: string, p: nat)
    requires p < |pat| && pat[p] !in SPECIALS && pat[p] != ')' && pat[p] != '\0'
    ensures Plain(pat, p) <==> Plain(pat, p + 1)
  {
  }

  lemma SelfStep(pat: string, p: nat)
    requires p < |pat| && NoSpecials(pat, p) && pat[p] != ')' && pat[p] != '\0'
    ensures Step(pat, pat, p, ItemAt(pat, p), []) == Outcomes(pat, pat, p + 1, p + 1, [])
  {
    hide Outcomes;
    assert NoSpecials(pat, p + 1);
  }

  /** Without special characters, the fast path and the search by matching agree on every subject if and only if the
      pattern has no closing parenthesis and no NUL: otherwise they differ when the pattern is searched in itself. */
  lemma FastPathExact(pat: string)
    requires NoSpecials(pat, 0)
    ensures Plain(pat, 0) <==> forall src: string, init: nat | init <= |src| :: SameValues(src, pat, init)
  {
    hide Search, FoundValues, FirstAt, NoSpecials, Plain, Within;
    if Plain(pat, 0) {
      forall src: string, init: nat | init <= |src|
        ensures SameValues(src, pat, init)
      {
        forall i: int | FirstAt(src[init..], pat, i)
          ensures SearchIn(src, Search(src, pat, 0, init, false))
          ensures FoundValues(src, true, Search(src, pat, 0, init, false)) ==
            Ok(if i < 0 then [Nil] else [Num(init + i + 1), Num(init + i + |pat|)])
        {
          SearchesAgree(src, pat, init, i);
        }
      }
    } else {
      SearchesDiffer(pat);
    }
  }

  /** The pattern occurs at the start of itself, but matching finds an error or too short an end there. */
  lemma SearchesDiffer(pat: string)
    requires NoSpecials(pat, 0) && !Plain(pat, 0)
    ensures !SameValues(pat, pat, 0)
  {
    hide Outcomes, ItemAt, Step, CaptureValues;
    assert pat[0..|pat|] == pat && pat[0..] == pat;
    assert FirstAt(pat[0..], pat, 0);
    var k := SelfMatch(pat, 0);
    if At(pat, k) == ')' {
      CloseStep(pat, k);
    } else {
      NulStep(pat, k);
    }
    CloseFold(pat, k);
    var vs := [Num(1), Num(k)];
    assert vs[1] != [Num(1), Num(|pat|)][1];
  }

  lemma CloseFold(pat: string, k: nat)
    requires k <= |pat|
    ensures Outcomes(pat, pat, k, k, []) == Step(pat, pat, k, ItemAt(pat, k), [])
  {
  }

  lemma CloseStep(pat: string, k: nat)
    requires k < |pat| && pat[k] == ')'
    ensures Step(pat, pat, k, ItemAt(pat, k), []) == [Fault(InvalidCapture)]
  {
  }

  lemma NulStep(pat: string, k: nat)
    requires k <= |pat| && At(pat, k) == '\0'
    ensures Step(pat, pat, k, ItemAt(pat, k), []) == [End(k, [])]
  {
  }
}
