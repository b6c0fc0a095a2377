/** Lua patterns: the text of a pattern, what its items mean, and in which order they are tried. */
module Patterns {
  import opened Numerals

  datatype MatchError =
    | EndsWithEscape | MissingBracket | MissingFrontierSet | UnbalancedPattern | InvalidCapture
    | InvalidCaptureIndex | TooManyCaptures | UnfinishedCapture | InvalidReplacement
    | TooComplex

  /** len is negative for a capture that is still open and for a position capture. */
  datatype Capture = Capture(init: nat, len: int)

  const CAP_UNFINISHED := -1
  const CAP_POSITION := -2
  const MAX_CAPTURES: nat := 32
  const MAX_XLEVEL: nat := 200

  const ESC := '%'

  /** A C string: what lies at or behind its end reads as NUL. */
  function At(s: string, i: nat): char {
    if i < |s| then s[i] else '\0'
  }

  // ----- single characters -----

  predicate IsLower(c: char) {
    'a' <= c <= 'z'
  }

  predicate IsUpper(c: char) {
    'A' <= c <= 'Z'
  }

  predicate IsControl(c: char) {
    c < ' ' || c as int == 127
  }

  predicate IsPunct(c: char) {
    '!' <= c <= '/' || ':' <= c <= '@' || '[' <= c <= '`' || '{' <= c <= '~'
  }

  /** The lower-case letters that `match_class_map` maps to a class. */
  predicate NamesClass(l: char) {
    l in "acdglpsuwx"
  }

  predicate InClass(c: char, l: char) {
    match l
    case 'a' => IsLower(c) || IsUpper(c)
    case 'c' => IsControl(c)
    case 'd' => IsDigit(c)
    case 'g' => '!' <= c <= '~'
    case 'l' => IsLower(c)
    case 'p' => IsPunct(c)
    case 's' => '\t' <= c <= '\r' || c == ' '
    case 'u' => IsUpper(c)
    case 'w' => IsLower(c) || IsUpper(c) || IsDigit(c)
    case 'x' => IsDigit(c) || 'a' <= c <= 'f' || 'A' <= c <= 'F'
    case _ => false
  }

  function Lower(c: char): char {
    if IsUpper(c) then c - 'A' + 'a' else c
  }

  /** `match_class` */
  predicate MatchClass(c: char, cl: char) {
    if NamesClass(Lower(cl)) then InClass(c, Lower(cl)) == IsLower(cl)
    else if cl == 'z' then c == '\0'
    else if cl == 'Z' then c != '\0'
    else cl == c
  }

  // ----- sets in brackets -----

  datatype Scan = Next(p: nat) | Bad(error: MatchError)

  /** From inside a set, the position behind its closing bracket; the first character never closes it. */
  function SetEnd(pat: string, i: nat): (r: Scan)
    ensures if r.Next? then i + 1 < r.p <= |pat| && pat[r.p - 1] == ']' else r.error != TooComplex
    decreases |pat| - i
  {
    if At(pat, i) == '\0' then Bad(MissingBracket)
    else
      var j := if pat[i] == ESC && At(pat, i + 1) != '\0' then i + 2 else i + 1;
      if At(pat, j) == ']' then Next(j + 1) else SetEnd(pat, j)
  }

  /** `classend`: the position behind the single-character item at p. */
  function ClassEnd(pat: string, p: nat): (r: Scan)
    requires p < |pat|
    ensures if r.Next? then p < r.p <= |pat| else r.error != TooComplex
  {
    if pat[p] == ESC then
      if At(pat, p + 1) == '\0' then Bad(EndsWithEscape) else Next(p + 2)
    else if pat[p] == '[' then SetEnd(pat, if At(pat, p + 1) == '^' then p + 2 else p + 1)
    else Next(p + 1)
  }

  /** Some element of the set between i and ec stands for c. */
  predicate SetHas(c: char, pat: string, i: nat, ec: nat)
    decreases ec - i
  {
    if i >= ec then false
    else if At(pat, i) == ESC then MatchClass(c, At(pat, i + 1)) || SetHas(c, pat, i + 2, ec)
    else if At(pat, i + 1) == '-' && i + 2 < ec then At(pat, i) <= c <= At(pat, i + 2) || SetHas(c, pat, i + 3, ec)
    else At(pat, i) == c || SetHas(c, pat, i + 1, ec)
  }

  /** The set that starts with the bracket at p and ends with the one at ec stands for c. */
  predicate InSet(c: char, pat: string, p: nat, ec: nat) {
    if At(pat, p + 1) == '^' then !SetHas(c, pat, p + 2, ec) else SetHas(c, pat, p + 1, ec)
  }

  /** `singlematch` */
  predicate Single(c: char, pat: string, p: nat, ep: nat)
    requires ep > 0
  {
    match At(pat, p)
    case '.' => true
    case '%' => MatchClass(c, At(pat, p + 1))
    case '[' => InSet(c, pat, p, ep - 1)
    case _ => At(pat, p) == c
  }

  /** The item at p, which ends at ep, stands for the character at s. */
  predicate Fits(src: string, s: nat, pat: string, p: nat, ep: nat)
    requires ep > 0
  {
    s < |src| && Single(src[s], pat, p, ep)
  }

  // ----- items -----

  /** How often a single-character item may occur. */
  datatype Repeat = Once | AtMostOnce | Greedy | GreedyOne | Lazy

  datatype Item =
    | Finish | Anchor
    | Open(what: int, next: nat) | Close(next: nat)
    | Balance(open: char, close: char, next: nat)
    | Frontier(p: nat, next: nat)
    | Back(digit: char, next: nat)
    | Chars(p: nat, ep: nat, repeat: Repeat, next: nat)
    | Broken(error: MatchError)

  function RepeatAt(pat: string, ep: nat): Repeat {
    match At(pat, ep)
    case '?' => AtMostOnce
    case '*' => Greedy
    case '+' => GreedyOne
    case '-' => Lazy
    case _ => Once
  }

  function CharsAt(pat: string, p: nat): (i: Item)
    requires p < |pat|
    ensures i.Broken? || (i.Chars? && i.p == p < i.ep <= i.next <= |pat| && ClassEnd(pat, p) == Next(i.ep))
  {
    match ClassEnd(pat, p)
    case Bad(e) => Broken(e)
    case Next(ep) =>
      var r := RepeatAt(pat, ep);
      Chars(p, ep, r, if r.Once? then ep else ep + 1)
  }

  predicate Continues(i: Item) {
    i.Open? || i.Close? || i.Balance? || i.Frontier? || i.Back? || i.Chars?
  }

  /** The item that starts at p. */
  function ItemAt(pat: string, p: nat): (i: Item)
    ensures Continues(i) ==> p < i.next <= |pat|
    ensures i.Chars? ==> p < i.ep <= i.next
  {
    match At(pat, p)
    case '\0' => Finish
    case '(' => if At(pat, p + 1) == ')' then Open(CAP_POSITION, p + 2) else Open(CAP_UNFINISHED, p + 1)
    case ')' => Close(p + 1)
    case '$' => if At(pat, p + 1) == '\0' then Anchor else CharsAt(pat, p)
    case '%' =>
      if At(pat, p + 1) == 'b' then
        if At(pat, p + 2) == '\0' || At(pat, p + 3) == '\0' then Broken(UnbalancedPattern)
        else Balance(At(pat, p + 2), At(pat, p + 3), p + 4)
      else if At(pat, p + 1) == 'f' then
        if At(pat, p + 2) != '[' then Broken(MissingFrontierSet)
        else
          match ClassEnd(pat, p + 2) {
            case Bad(e) => Broken(e)
            case Next(ep) => Frontier(p + 2, ep)
          }
      else if IsDigit(At(pat, p + 1)) then Back(At(pat, p + 1), p + 2)
      else CharsAt(pat, p)
    case _ => CharsAt(pat, p)
  }

  // ----- what a pattern means -----

  /** An end that the rest of a pattern can reach, with the captures made; or an error met on the way. */
  datatype Leaf = End(end: nat, caps: seq<Capture>) | Fault(error: MatchError)

  /** The innermost capture that is still open, or -1. */
  function OpenCapture(caps: seq<Capture>): (l: int)
    ensures -1 <= l < |caps| && (l >= 0 ==> caps[l].len == CAP_UNFINISHED)
    ensures forall k | l < k < |caps| :: caps[k].len != CAP_UNFINISHED
  {
    if caps == [] then -1
    else if caps[|caps| - 1].len == CAP_UNFINISHED then |caps| - 1
    else OpenCapture(caps[..|caps| - 1])
  }

  /** Where a balanced string that is cont levels deep at i ends. */
  function BalanceEnd(src: string, i: nat, open: char, close: char, cont: nat): (e: int)
    ensures e == -1 || i < e <= |src|
    decreases |src| - i
  {
    if i >= |src| then -1
    else if src[i] == close then if cont <= 1 then i + 1 else BalanceEnd(src, i + 1, open, close, cont - 1)
    else BalanceEnd(src, i + 1, open, close, if src[i] == open then cont + 1 else cont)
  }

  /** `match_capture`, once the capture is known: a position capture, whose length wraps round, never fits. */
  predicate Repeats(src: string, s: nat, c: Capture) {
    c.len >= 0 && s + c.len <= |src| && c.init + c.len <= |src| && src[c.init..c.init + c.len] == src[s..s + c.len]
  }

  predicate Known(caps: seq<Capture>, digit: char) {
    var l := digit as int - '1' as int;
    0 <= l < |caps| && caps[l].len != CAP_UNFINISHED
  }

  /** How many characters in a row from s the item stands for. */
  function Run(src: string, s: nat, pat: string, p: nat, ep: nat): (n: nat)
    requires ep > 0 && s <= |src|
    ensures s + n <= |src| && !Fits(src, s + n, pat, p, ep)
    ensures forall k | s <= k < s + n :: Fits(src, k, pat, p, ep)
    decreases |src| - s
  {
    if Fits(src, s, pat, p, ep) then 1 + Run(src, s + 1, pat, p, ep) else 0
  }

  /** All ways to match the pattern from p on at s, in the order in which backtracking tries them. */
  ghost function Outcomes(src: string, pat: string, s: nat, p: nat, caps: seq<Capture>): seq<Leaf>
    requires s <= |src| && p <= |pat|
    decreases |pat| - p + 1, 0, 0
  {
    Step(src, pat, s, ItemAt(pat, p), caps)
  }

  /** All ways to match an item at s, and then the rest of the pattern. */
  ghost function Step(src: string, pat: string, s: nat, item: Item, caps: seq<Capture>): seq<Leaf>
    requires s <= |src| && (Continues(item) ==> item.next <= |pat|) && (item.Chars? ==> item.ep > 0) &&
      (item.Frontier? ==> item.next > 0)
    decreases if Continues(item) then |pat| - item.next + 1 else 0, 2, 0
  {
    match item
    case Finish => [End(s, caps)]
    case Anchor => if s == |src| then [End(s, caps)] else []
    case Broken(e) => [Fault(e)]
    case Open(what, next) =>
      if |caps| >= MAX_CAPTURES then [Fault(TooManyCaptures)]
      else Outcomes(src, pat, s, next, caps + [Capture(s, what)])
    case Close(next) =>
      var l := OpenCapture(caps);
      if l < 0 then [Fault(InvalidCapture)]
      else Outcomes(src, pat, s, next, caps[l := Capture(caps[l].init, s - caps[l].init)])
    case Balance(open, close, next) =>
      var e := if At(src, s) == open then BalanceEnd(src, s + 1, open, close, 1) else -1;
      if e < 0 then [] else Outcomes(src, pat, e, next, caps)
    case Frontier(q, next) =>
      if InSet(if s == 0 then '\0' else src[s - 1], pat, q, next - 1) || !InSet(At(src, s), pat, q, next - 1) then []
      else Outcomes(src, pat, s, next, caps)
    case Back(digit, next) =>
      if !Known(caps, digit) then [Fault(InvalidCaptureIndex)]
      else
        var c := caps[digit as int - '1' as int];
        if Repeats(src, s, c) then Outcomes(src, pat, s + c.len, next, caps) else []
    case Chars(q, ep, repeat, next) =>
      var m := Fits(src, s, pat, q, ep);
      match repeat {
        case Once => if m then Outcomes(src, pat, s + 1, next, caps) else []
        case AtMostOnce =>
          (if m then Outcomes(src, pat, s + 1, next, caps) else []) + Outcomes(src, pat, s, next, caps)
        case Greedy => Longest(src, pat, s, Run(src, s, pat, q, ep), next, caps)
        case GreedyOne => if m then Longest(src, pat, s + 1, Run(src, s + 1, pat, q, ep), next, caps) else []
        case Lazy => Shortest(src, pat, s, Run(src, s, pat, q, ep), next, caps)
      }
  }

  /** The rest of the pattern after n, n - 1, ... and 0 characters. */
  ghost function Longest(src: string, pat: string, s: nat, n: nat, next: nat, caps: seq<Capture>): seq<Leaf>
    requires s + n <= |src| && next <= |pat|
    decreases |pat| - next + 1, 1, n
  {
    Outcomes(src, pat, s + n, next, caps) + if n == 0 then [] else Longest(src, pat, s, n - 1, next, caps)
  }

  /** The rest of the pattern after 0, 1, ... and n characters. */
  ghost function Shortest(src: string, pat: string, s: nat, n: nat, next: nat, caps: seq<Capture>): seq<Leaf>
    requires s + n <= |src| && next <= |pat|
    decreases |pat| - next + 1, 1, n
  {
    Outcomes(src, pat, s, next, caps) + if n == 0 then [] else Shortest(src, pat, s + 1, n - 1, next, caps)
  }

  // ----- patterns that stand for themselves -----

  const SPECIALS := "^$*+?.([%-"

  /** From p on, the pattern has no special character, no closing parenthesis and no NUL. */
  predicate Plain(pat: string, p: nat) {
    forall i | p <= i < |pat| :: pat[i] !in SPECIALS && pat[i] != ')' && pat[i] != '\0'
  }

  lemma PlainItem(pat: string, p: nat)
    requires p < |pat|
    ensures Plain(pat, p) ==> ItemAt(pat, p) == Chars(p, p + 1, Once, p + 1) && ClassEnd(pat, p) == Next(p + 1)
    ensures Plain(pat, p) ==> Plain(pat, p + 1) && At(pat, p + 1) !in "?*+-"
  {
    if Plain(pat, p) {
      assert pat[p] !in SPECIALS && pat[p] != ')' && pat[p] != '\0';
    }
  }
}
