/** How the items of patterns are written, and what each of them stands for. */
module PatternSyntax {
  import opened Numerals
  import opened Patterns

  // ----- classes -----

  const UPPER := "ABCDEFGHIJKLMNOPQRSTUVWXYZ"
  const LOWER := "abcdefghijklmnopqrstuvwxyz"
  const DIGITS := "0123456789"
  const HEX_LETTERS := "abcdef"
  const HEX_CAPITALS := "ABCDEF"
  const BEFORE_DIGITS := "!\"#$%&'()*+,-./"
  const BEHIND_DIGITS := ":;<=>?@"
  const BETWEEN_LETTERS := "[\\]^_`"
  const BEHIND_LETTERS := "{|}~"

  /** The characters of the text follow each other, from the code first on. */
  ghost predicate Row(t: string, first: int) {
    forall k | 0 <= k < |t| :: t[k] as int == first + k
  }

  lemma InRow(t: string, first: int, c: char)
    requires Row(t, first)
    ensures c in t <==> first <= c as int < first + |t|
  {
    if first <= c as int < first + |t| {
      assert t[c as int - first] == c;
    }
  }

  lemma LetterRows()
    ensures Row(UPPER, 'A' as int) && |UPPER| == 26 && Row(LOWER, 'a' as int) && |LOWER| == 26
    ensures Row(DIGITS, '0' as int) && |DIGITS| == 10
    ensures Row(HEX_LETTERS, 'a' as int) && Row(HEX_CAPITALS, 'A' as int) && |HEX_LETTERS| == |HEX_CAPITALS| == 6
  {
  }

  lemma PunctuationRows()
    ensures Row(BEFORE_DIGITS, '!' as int) && |BEFORE_DIGITS| == 15
    ensures Row(BEHIND_DIGITS, ':' as int) && |BEHIND_DIGITS| == 7
    ensures Row(BETWEEN_LETTERS, '[' as int) && |BETWEEN_LETTERS| == 6
    ensures Row(BEHIND_LETTERS, '{' as int) && |BEHIND_LETTERS| == 4
  {
  }

  /** The characters of the classes for letters and digits. */
  lemma LetterClasses(c: char)
    ensures MatchClass(c, 'u') <==> c in UPPER
    ensures MatchClass(c, 'l') <==> c in LOWER
    ensures MatchClass(c, 'd') <==> c in DIGITS
    ensures MatchClass(c, 'x') <==> c in DIGITS || c in HEX_LETTERS || c in HEX_CAPITALS
  {
    hide Row, UPPER, LOWER, DIGITS, HEX_LETTERS, HEX_CAPITALS;
    LetterRows();
    InRow(UPPER, 'A' as int, c);
    InRow(LOWER, 'a' as int, c);
    InRow(DIGITS, '0' as int, c);
    InRow(HEX_LETTERS, 'a' as int, c);
    InRow(HEX_CAPITALS, 'A' as int, c);
  }

  /** Those of the classes for punctuation, space and control characters, and the NUL. */
  lemma OtherClasses(c: char)
    ensures MatchClass(c, 'p') <==>
      c in BEFORE_DIGITS || c in BEHIND_DIGITS || c in BETWEEN_LETTERS || c in BEHIND_LETTERS
    ensures MatchClass(c, 's') <==> c == ' ' || c as int in {9, 10, 11, 12, 13}
    ensures MatchClass(c, 'c') <==> c as int < 32 || c as int == 127
    ensures MatchClass(c, 'z') <==> c as int == 0
  {
    hide Row, BEFORE_DIGITS, BEHIND_DIGITS, BETWEEN_LETTERS, BEHIND_LETTERS;
    PunctuationRows();
    InRow(BEFORE_DIGITS, '!' as int, c);
    InRow(BEHIND_DIGITS, ':' as int, c);
    InRow(BETWEEN_LETTERS, '[' as int, c);
    InRow(BEHIND_LETTERS, '{' as int, c);
  }

  /** Letters are of either case, word characters letters or digits, and visible ones word characters or punctuation;
      these two do not overlap. */
  lemma ClassParts(c: char)
    ensures MatchClass(c, 'a') <==> MatchClass(c, 'u') || MatchClass(c, 'l')
    ensures MatchClass(c, 'w') <==> MatchClass(c, 'a') || MatchClass(c, 'd')
    ensures MatchClass(c, 'g') <==> MatchClass(c, 'w') || MatchClass(c, 'p')
    ensures !(MatchClass(c, 'w') && MatchClass(c, 'p'))
  {
  }

  /** An upper-case letter names what its class leaves out; what is no letter of a class stands for itself. */
  lemma ClassNegated(c: char, l: char)
    ensures l in "acdglpsuwxz" ==> MatchClass(c, l - 'a' + 'A') == !MatchClass(c, l)
    ensures l !in "acdglpsuwxz" && l !in "ACDGLPSUWXZ" ==> (MatchClass(c, l) <==> c == l)
  {
  }

  // ----- sets -----

  /** An element of a set: a character, a class or a range. */
  datatype Element = One(c: char) | Class(l: char) | Span(lo: char, hi: char)

  predicate ElementHas(e: Element, c: char) {
    match e
    case One(d) => c == d
    case Class(l) => MatchClass(c, l)
    case Span(lo, hi) => lo <= c <= hi
  }

  ghost predicate SomeHas(es: seq<Element>, c: char) {
    exists e | e in es :: ElementHas(e, c)
  }

  function ElementText(e: Element): (t: string)
    ensures t != ""
  {
    match e
    case One(c) => [c]
    case Class(l) => [ESC, l]
    case Span(lo, hi) => [lo, '-', hi]
  }

  function ElementsText(es: seq<Element>): string {
    if es == [] then "" else ElementText(es[0]) + ElementsText(es[1..])
  }

  function SetText(negated: bool, es: seq<Element>): string {
    (if negated then "[^" else "[") + ElementsText(es) + "]"
  }

  /** A bracket is an ordinary character only at the start of a set, and behind an escape. */
  predicate GoodElement(e: Element, first: bool) {
    match e
    case One(c) => c !in "%\0" && (c == ']' ==> first)
    case Class(l) => l != '\0'
    case Span(lo, hi) => lo !in "%\0" && (lo == ']' ==> first) && hi !in "]%\0"
  }

  /** The elements can be written one after the other: a hyphen behind a character would make a range, but at the
      end. */
  predicate GoodElements(es: seq<Element>, first: bool) {
    es == [] || (
      && GoodElement(es[0], first) && GoodElements(es[1..], false)
      && (es[0].One? && |es| > 1 && ElementText(es[1])[0] == '-' ==> es[1..] == [One('-')]))
  }

  predicate GoodSet(negated: bool, es: seq<Element>) {
    es != [] && GoodElements(es, true) && (!negated ==> ElementText(es[0])[0] != '^')
  }

  /** The text t is what the pattern has at i. */
  predicate Has(pat: string, i: nat, t: string) {
    i + |t| <= |pat| && pat[i..i + |t|] == t
  }

  lemma HasParts(pat: string, i: nat, a: string, b: string)
    ensures Has(pat, i, a + b) <==> Has(pat, i, a) && Has(pat, i + |a|, b)
  {
    if i + |a| + |b| <= |pat| {
      var t := pat[i..i + |a + b|];
      assert t == pat[i..i + |a|] + pat[i + |a|..i + |a| + |b|];
      assert Has(pat, i, a + b) ==> t[..|a|] == (a + b)[..|a|] && t[|a|..] == (a + b)[|a|..];
    }
  }

  lemma HasChar(pat: string, i: nat, t: string, k: nat)
    requires Has(pat, i, t) && k < |t|
    ensures At(pat, i + k) == t[k]
  {
    assert pat[i..i + |t|][k] == t[k];
  }

  predicate ElementAt(pat: string, i: nat, e: Element) {
    match e
    case One(c) => At(pat, i) == c
    case Class(l) => At(pat, i) == ESC && At(pat, i + 1) == l
    case Span(lo, hi) => At(pat, i) == lo && At(pat, i + 1) == '-' && At(pat, i + 2) == hi
  }

  lemma ElementShown(pat: string, i: nat, e: Element)
    requires Has(pat, i, ElementText(e))
    ensures ElementAt(pat, i, e) && At(pat, i) == ElementText(e)[0]
  {
    hide Has;
    var t := ElementText(e);
    HasChar(pat, i, t, 0);
    if |t| > 1 {
      HasChar(pat, i, t, 1);
    }
    if |t| > 2 {
      HasChar(pat, i, t, 2);
    }
  }

  /** The first element, what comes behind its text, and the rest. */
  lemma FirstElement(pat: string, i: nat, es: seq<Element>)
    requires es != [] && Has(pat, i, ElementsText(es) + "]")
    ensures var t := ElementText(es[0]);
      && ElementAt(pat, i, es[0]) && At(pat, i) == t[0] && Has(pat, i + |t|, ElementsText(es[1..]) + "]")
      && At(pat, i + |t|) == (if |es| > 1 then ElementText(es[1])[0] else ']')
      && |ElementsText(es)| == |t| + |ElementsText(es[1..])| && (|es| == 1 <==> ElementsText(es[1..]) == "")
      && i + |t| < |pat|
  {
    hide Has, ElementAt;
    var t, rest := ElementText(es[0]), ElementsText(es[1..]) + "]";
    assert ElementsText(es) + "]" == t + rest;
    HasParts(pat, i, t, rest);
    ElementShown(pat, i, es[0]);
    HasChar(pat, i + |t|, rest, 0);
    HasInside(pat, i + |t|, rest);
  }

  lemma HasInside(pat: string, i: nat, t: string)
    requires Has(pat, i, t)
    ensures i + |t| <= |pat|
  {
  }

  lemma SomeOfFirst(es: seq<Element>, c: char)
    requires es != []
    ensures SomeHas(es, c) <==> ElementHas(es[0], c) || SomeHas(es[1..], c)
  {
    hide ElementHas;
    assert es == [es[0]] + es[1..];
  }

  lemma NoElements(c: char)
    ensures ElementsText([]) == "" && !SomeHas([], c)
  {
  }

  /** The loop over a set finds exactly the characters that its elements have. */
  lemma {:induction false} ElementsRead(c: char, pat: string, i: nat, es: seq<Element>, first: bool)
    requires GoodElements(es, first) && Has(pat, i, ElementsText(es) + "]")
    ensures SetHas(c, pat, i, i + |ElementsText(es)|) <==> SomeHas(es, c)
    decreases |es|
  {
    hide MatchClass, Has, ElementsText, SomeHas;
    if es == [] {
      NoElements(c);
    } else {
      FirstElement(pat, i, es);
      LoneHyphen();
      ElementRead(c, pat, i, i + |ElementsText(es)|, es[0], first);
      ElementsRead(c, pat, i + |ElementText(es[0])|, es[1..], false);
      SomeOfFirst(es, c);
    }
  }

  lemma LoneHyphen()
    ensures ElementsText([One('-')]) == "-"
  {
    assert ElementsText([One('-')]) == ElementText(One('-')) + ElementsText([]);
  }

  lemma ElementRead(c: char, pat: string, i: nat, ec: nat, e: Element, first: bool)
    requires GoodElement(e, first) && ElementAt(pat, i, e) && i + |ElementText(e)| <= ec
    requires e.One? ==> At(pat, i + 1) != '-' || ec <= i + 2
    ensures SetHas(c, pat, i, ec) <==> ElementHas(e, c) || SetHas(c, pat, i + |ElementText(e)|, ec)
  {
    hide MatchClass;
  }

  lemma ElementEnds(pat: string, i: nat, e: Element, first: bool)
    requires GoodElement(e, first)
    requires ElementAt(pat, i, e) && i + |ElementText(e)| < |pat|
    ensures var j := i + |ElementText(e)|; SetEnd(pat, i) == if At(pat, j) == ']' then Next(j + 1) else SetEnd(pat, j)
  {
    if e.Span? {
      assert SetEnd(pat, i) == SetEnd(pat, i + 1) && SetEnd(pat, i + 1) == SetEnd(pat, i + 2);
    }
  }

  /** The set ends behind its elements. */
  lemma {:induction false} ElementsEnd(pat: string, i: nat, es: seq<Element>, first: bool)
    requires es != [] && GoodElements(es, first) && Has(pat, i, ElementsText(es) + "]")
    ensures SetEnd(pat, i) == Next(i + |ElementsText(es)| + 1)
    decreases |es|
  {
    hide Has, ElementsText, SetEnd;
    FirstElement(pat, i, es);
    assert |es| > 1 ==> es[1..][0] == es[1] && ElementText(es[1])[0] != ']';
    ElementEnds(pat, i, es[0], first);
    if |es| > 1 {
      ElementsEnd(pat, i + |ElementText(es[0])|, es[1..], false);
    }
  }

  /** A set in the pattern: where it ends, and that it stands for what its elements have, or for all else. */
  lemma SetMeans(pat: string, p: nat, negated: bool, es: seq<Element>)
    requires GoodSet(negated, es) && Has(pat, p, SetText(negated, es))
    ensures var ep := p + |SetText(negated, es)|;
      && ClassEnd(pat, p) == Next(ep)
      && forall c :: InSet(c, pat, p, ep - 1) <==> SomeHas(es, c) != negated
  {
    hide Has, SetEnd, SetHas, ElementsText, SomeHas;
    var open := if negated then "[^" else "[";
    var i := p + |open|;
    assert SetText(negated, es) == open + (ElementsText(es) + "]");
    HasParts(pat, p, open, ElementsText(es) + "]");
    HasChar(pat, p, open, 0);
    if negated {
      HasChar(pat, p, open, 1);
    }
    FirstElement(pat, i, es);
    ElementsEnd(pat, i, es, true);
    forall c
      ensures InSet(c, pat, p, i + |ElementsText(es)|) <==> SomeHas(es, c) != negated
    {
      ElementsRead(c, pat, i, es, true);
    }
  }

  /** The set with these elements is written from p on, up to the bracket at ec. */
  ghost predicate SetAt(pat: string, p: nat, ec: nat, negated: bool, es: seq<Element>) {
    GoodSet(negated, es) && Has(pat, p, SetText(negated, es)) && ec == p + |SetText(negated, es)| - 1
  }

  lemma SetsMean(c: char, pat: string, p: nat, ec: nat)
    ensures forall negated: bool, es: seq<Element> | SetAt(pat, p, ec, negated, es) ::
        InSet(c, pat, p, ec) <==> SomeHas(es, c) != negated
  {
    hide GoodSet, Has, SetText, InSet, SomeHas, ClassEnd;
    forall negated: bool, es: seq<Element> | SetAt(pat, p, ec, negated, es)
      ensures InSet(c, pat, p, ec) <==> SomeHas(es, c) != negated
    {
      SetMeans(pat, p, negated, es);
    }
  }

  // ----- items -----

  /** An item for a single character: any, itself, behind an escape, or one of a set. */
  datatype Sign = Any | Itself(c: char) | Escape(l: char) | Set(negated: bool, es: seq<Element>)

  ghost predicate SignHas(x: Sign, c: char) {
    match x
    case Any => true
    case Itself(d) => c == d
    case Escape(l) => MatchClass(c, l)
    case Set(negated, es) => SomeHas(es, c) != negated
  }

  function SignText(x: Sign): (t: string)
    ensures t != ""
  {
    match x
    case Any => "."
    case Itself(c) => [c]
    case Escape(l) => [ESC, l]
    case Set(negated, es) => SetText(negated, es)
  }

  predicate GoodSign(x: Sign) {
    match x
    case Any => true
    case Itself(c) => c !in "%.[()\0"
    case Escape(l) => l !in "bf\0" && !IsDigit(l)
    case Set(negated, es) => GoodSet(negated, es)
  }

  function Suffix(r: Repeat): string {
    match r
    case Once => ""
    case AtMostOnce => "?"
    case Greedy => "*"
    case GreedyOne => "+"
    case Lazy => "-"
  }

  /** An item as it is written: the start of a capture, a position, the end of a capture, a balanced text, a frontier, a
      capture once more, and a character, perhaps repeated. */
  datatype Written =
    | Starts | Place | Ends
    | Pair(open: char, close: char)
    | Border(negated: bool, es: seq<Element>)
    | Again(digit: char)
    | Signs(x: Sign, repeat: Repeat)

  function WrittenText(w: Written): (t: string)
    ensures t != ""
  {
    match w
    case Starts => "("
    case Place => "()"
    case Ends => ")"
    case Pair(open, close) => "%b" + [open, close]
    case Border(negated, es) => "%f" + SetText(negated, es)
    case Again(digit) => "%" + [digit]
    case Signs(x, repeat) => SignText(x) + Suffix(repeat)
  }

  /** The item can be written with next behind it, which is NUL at the end of the pattern. */
  predicate GoodWritten(w: Written, next: char) {
    match w
    case Starts => next != ')'
    case Place => true
    case Ends => true
    case Pair(open, close) => open != '\0' && close != '\0'
    case Border(negated, es) => GoodSet(negated, es)
    case Again(digit) => IsDigit(digit)
    case Signs(x, repeat) =>
      && GoodSign(x) && (repeat.Once? ==> next !in "?*+-")
      && (x == Itself('$') && repeat.Once? ==> next != '\0')
  }

  /** What a written item is read as, from p to n, and what it stands for. */
  ghost predicate ReadAs(pat: string, p: nat, w: Written, n: nat) {
    match w
    case Starts => ItemAt(pat, p) == Open(CAP_UNFINISHED, n)
    case Place => ItemAt(pat, p) == Open(CAP_POSITION, n)
    case Ends => ItemAt(pat, p) == Close(n)
    case Pair(open, close) => ItemAt(pat, p) == Balance(open, close, n)
    case Border(negated, es) =>
      && n > 0 && ItemAt(pat, p) == Frontier(p + 2, n)
      && forall c :: InSet(c, pat, p + 2, n - 1) <==> SomeHas(es, c) != negated
    case Again(digit) => ItemAt(pat, p) == Back(digit, n)
    case Signs(x, repeat) =>
      && n > |Suffix(repeat)| && ItemAt(pat, p) == Chars(p, n - |Suffix(repeat)|, repeat, n)
      && forall c :: Single(c, pat, p, n - |Suffix(repeat)|) <==> SignHas(x, c)
  }

  lemma SignMeans(pat: string, p: nat, x: Sign)
    requires GoodSign(x) && Has(pat, p, SignText(x))
    ensures var ep := p + |SignText(x)|;
      && p < |pat| && ClassEnd(pat, p) == Next(ep) && (forall c :: Single(c, pat, p, ep) <==> SignHas(x, c))
      && (x.Escape? ==> At(pat, p) == ESC && At(pat, p + 1) == x.l) && (x.Set? ==> At(pat, p) == '[')
      && (x.Itself? ==> At(pat, p) == x.c && ep == p + 1) && (x.Any? ==> At(pat, p) == '.')
  {
    hide Has, MatchClass, SetEnd, SetHas, InSet, ElementsText, SomeHas, SetText, GoodSet;
    var t := SignText(x);
    HasChar(pat, p, t, 0);
    HasInside(pat, p, t);
    if x.Escape? {
      HasChar(pat, p, t, 1);
    } else if x.Set? {
      SetMeans(pat, p, x.negated, x.es);
      SetStarts(x.negated, x.es);
    }
  }

  lemma SetStarts(negated: bool, es: seq<Element>)
    ensures SetText(negated, es)[0] == '['
  {
  }

  lemma SignsRead(pat: string, p: nat, x: Sign, repeat: Repeat)
    requires Has(pat, p, SignText(x) + Suffix(repeat))
    requires GoodWritten(Signs(x, repeat), At(pat, p + |SignText(x)| + |Suffix(repeat)|))
    ensures ReadAs(pat, p, Signs(x, repeat), p + |SignText(x)| + |Suffix(repeat)|)
  {
    hide Has, MatchClass, ClassEnd, Single, SignHas, SignText, GoodSet;
    HasParts(pat, p, SignText(x), Suffix(repeat));
    SignMeans(pat, p, x);
    if !repeat.Once? {
      HasChar(pat, p + |SignText(x)|, Suffix(repeat), 0);
      HasInside(pat, p + |SignText(x)|, Suffix(repeat));
    }
  }

  /** Every item is read as it was written. */
  lemma ItemReads(pat: string, p: nat, w: Written)
    requires Has(pat, p, WrittenText(w)) && GoodWritten(w, At(pat, p + |WrittenText(w)|))
    ensures ReadAs(pat, p, w, p + |WrittenText(w)|)
  {
    hide Has, MatchClass, ClassEnd, Single, SignHas, SignText, SetText, GoodSet, InSet, SomeHas, ItemAt, CharsAt;
    var t := WrittenText(w);
    if w.Signs? {
      SignsRead(pat, p, w.x, w.repeat);
    } else {
      HasChar(pat, p, t, 0);
      if |t| > 1 {
        HasChar(pat, p, t, 1);
      }
      OtherRead(pat, p, w);
    }
  }

  lemma OtherRead(pat: string, p: nat, w: Written)
    requires !w.Signs? && Has(pat, p, WrittenText(w)) && GoodWritten(w, At(pat, p + |WrittenText(w)|))
    requires At(pat, p) == WrittenText(w)[0] && (|WrittenText(w)| > 1 ==> At(pat, p + 1) == WrittenText(w)[1])
    ensures ReadAs(pat, p, w, p + |WrittenText(w)|)
  {
    hide Has, MatchClass, ClassEnd, SetText, GoodSet, InSet, SomeHas, CharsAt;
    if w.Pair? {
      HasChar(pat, p, WrittenText(w), 2);
      HasChar(pat, p, WrittenText(w), 3);
    } else if w.Border? {
      HasParts(pat, p, "%f", SetText(w.negated, w.es));
      SetMeans(pat, p + 2, w.negated, w.es);
      SetStarts(w.negated, w.es);
      HasChar(pat, p + 2, SetText(w.negated, w.es), 0);
    }
  }

  /** The end of the pattern, and the anchor there. */
  lemma LastItem(pat: string, p: nat)
    ensures p >= |pat| ==> ItemAt(pat, p) == Finish
    ensures p + 1 == |pat| && pat[p] == '$' ==> ItemAt(pat, p) == Anchor
  {
  }

  // ----- what is malformed -----

  lemma {:induction false} NoBracket(pat: string, i: nat)
    requires forall k | i < k < |pat| :: pat[k] != ']'
    ensures SetEnd(pat, i) == Bad(MissingBracket)
    decreases |pat| - i
  {
    if At(pat, i) != '\0' {
      NoBracket(pat, if pat[i] == ESC && At(pat, i + 1) != '\0' then i + 2 else i + 1);
    }
  }

  /** The errors for what is cut off: an escape at the end, a set without its bracket, `%b` without two characters, `%f`
      without a set. */
  lemma Malformed(pat: string, p: nat)
    requires p < |pat|
    ensures pat[p] == ESC && p + 1 == |pat| ==> ItemAt(pat, p) == Broken(EndsWithEscape)
    ensures pat[p] == '[' && (forall k | p < k < |pat| :: pat[k] != ']') ==> ItemAt(pat, p) == Broken(MissingBracket)
    ensures pat[p] == ESC && At(pat, p + 1) == 'b' && p + 4 > |pat| ==> ItemAt(pat, p) == Broken(UnbalancedPattern)
    ensures pat[p] == ESC && At(pat, p + 1) == 'f' && At(pat, p + 2) != '[' ==>
      ItemAt(pat, p) == Broken(MissingFrontierSet)
  {
    hide SetEnd;
    if pat[p] == '[' && forall k | p < k < |pat| :: pat[k] != ']' {
      NoBracket(pat, if At(pat, p + 1) == '^' then p + 2 else p + 1);
    }
  }
}
