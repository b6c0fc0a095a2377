/** Parsing one field of a cron expression into a bit mask. */
module CronParse {
  import opened Common
  import opened BinMap
  import opened Numerals
  import TreeIndex

  /** The values from start to end in steps of incr. */
  datatype Range = Range(start: nat, end: nat, incr: nat)

  // ----- words -----

  function Or(a: nat, b: nat): nat {
    if a == 0 then b
    else (if a % 2 == 1 || b % 2 == 1 then 1 else 0) + 2 * Or(a / 2, b / 2)
  }

  function And(a: nat, b: nat): nat {
    if a == 0 then 0
    else (if a % 2 == 1 && b % 2 == 1 then 1 else 0) + 2 * And(a / 2, b / 2)
  }

  /** The complement of the low w bits. */
  function Not(x: nat, w: nat): nat {
    if w == 0 then 0 else (1 - x % 2) + 2 * Not(x / 2, w - 1)
  }

  /** w ones */
  function Ones(w: nat): nat {
    if w == 0 then 0 else 1 + 2 * Ones(w - 1)
  }

  /** The low w bits. */
  function Low(x: nat, w: nat): nat {
    if w == 0 then 0 else x % 2 + 2 * Low(x / 2, w - 1)
  }

  lemma {:induction false} OrBits(a: nat, b: nat, j: nat)
    ensures Marked(Or(a, b), j) == (Marked(a, j) || Marked(b, j))
  {
    if a == 0 {
      ZeroHasNone(j);
    } else if j > 0 {
      OrBits(a / 2, b / 2, j - 1);
    }
  }

  lemma {:induction false} AndBits(a: nat, b: nat, j: nat)
    ensures Marked(And(a, b), j) == (Marked(a, j) && Marked(b, j))
  {
    if a == 0 {
      ZeroHasNone(j);
    } else if j > 0 {
      AndBits(a / 2, b / 2, j - 1);
    }
  }

  lemma {:induction false} NotBits(x: nat, w: nat, j: nat)
    ensures Marked(Not(x, w), j) == (j < w && !Marked(x, j))
  {
    if w == 0 {
      ZeroHasNone(j);
    } else if j > 0 {
      NotBits(x / 2, w - 1, j - 1);
    }
  }

  lemma {:induction false} OnesBits(w: nat, j: nat)
    ensures Marked(Ones(w), j) == (j < w)
  {
    if w == 0 {
      ZeroHasNone(j);
    } else if j > 0 {
      OnesBits(w - 1, j - 1);
    }
  }

  lemma {:induction false} LowBits(x: nat, w: nat, j: nat)
    ensures Marked(Low(x, w), j) == (j < w && Marked(x, j))
  {
    if w == 0 {
      ZeroHasNone(j);
    } else if j > 0 {
      LowBits(x / 2, w - 1, j - 1);
    }
  }

  /** `math.MaxUint64 << k` in 64 bits */
  function OnesFrom(k: nat): nat {
    Low(ShiftLeft(Ones(64), k), 64)
  }

  /** `^(math.MaxUint64 << (end+1)) & (math.MaxUint64 << start)` */
  function RangeMask(start: nat, end: nat): nat {
    And(Not(OnesFrom(end + 1), 64), OnesFrom(start))
  }

  lemma RangeBits(start: nat, end: nat, j: nat)
    requires start <= end < 64
    ensures Marked(RangeMask(start, end), j) <==> start <= j <= end
  {
    hide Ones, ShiftLeft, Low, Not, And, Marked;
    AndBits(Not(OnesFrom(end + 1), 64), OnesFrom(start), j);
    NotBits(OnesFrom(end + 1), 64, j);
    OnesFromBits(end + 1, j);
    OnesFromBits(start, j);
  }

  lemma OnesFromBits(k: nat, j: nat)
    ensures Marked(OnesFrom(k), j) <==> k <= j < 64
  {
    hide Ones, ShiftLeft, Low, Marked;
    LowBits(ShiftLeft(Ones(64), k), 64, j);
    ShiftLeftMoves(Ones(64), k, j);
    if j >= k {
      OnesBits(64, j - k);
    }
  }

  // ----- text -----

  /** `strings.Split` for a separator of one character. */
  function Split(s: string, sep: char): (r: seq<string>)
    ensures r != []
  {
    if s == "" then [""]
    else
      var rest := Split(s[1..], sep);
      if s[0] == sep then [""] + rest else [[s[0]] + rest[0]] + rest[1..]
  }

  function Join(parts: seq<string>, sep: char): string
    requires parts != []
  {
    if |parts| == 1 then parts[0] else parts[0] + [sep] + Join(parts[1..], sep)
  }

  /** What is in front of the first separator is the first part. */
  lemma {:induction false} SplitFront(a: string, rest: string, sep: char)
    requires sep !in a
    ensures Split(a, sep) == [a] && Split(a + [sep] + rest, sep) == [a] + Split(rest, sep)
  {
    var s := a + [sep] + rest;
    if a == "" {
      assert s[1..] == rest;
    } else {
      assert a[0] in a && forall c | c in a[1..] :: c in a;
      SplitFront(a[1..], rest, sep);
      assert s[1..] == a[1..] + [sep] + rest && s[0] == a[0] && a == [a[0]] + a[1..];
    }
  }

  /** Splitting loses nothing, and no part has a separator. */
  lemma {:induction false} SplitJoins(s: string, sep: char)
    ensures Join(Split(s, sep), sep) == s
    ensures forall p | p in Split(s, sep) :: sep !in p
  {
    if s != "" {
      SplitJoins(s[1..], sep);
      var rest := Split(s[1..], sep);
      assert s == [s[0]] + s[1..];
      if s[0] == sep {
        assert ([""] + rest)[1..] == rest;
      } else {
        var all := [[s[0]] + rest[0]] + rest[1..];
        assert all[1..] == rest[1..] && rest[0] in rest;
      }
    }
  }

  const MAX_INT := 0x7fff_ffff_ffff_ffff

  /** `strconv.Atoi` */
  function Atoi(s: string): Option<int> {
    var signed := s != "" && (s[0] == '+' || s[0] == '-');
    var digits := if signed then s[1..] else s;
    if digits == "" then None
    else
      match DigitsValue(digits)
      case None => None
      case Some(n) =>
        var m: int := n;
        var v: int := if signed && s[0] == '-' then -m else m;
        if -MAX_INT - 1 <= v <= MAX_INT then Some(v) else None
  }

  // ----- one part of a field -----

  /** What a part between commas stands for. */
  function PartRange(part: string, min: nat, max: nat): Option<Range> {
    var rangeAndIncr := Split(part, '/');
    if |rangeAndIncr| > 2 then None
    else
      match Bounds(rangeAndIncr, min, max)
      case None => None
      case Some((start, end)) =>
        if start > end || start < min || end > max then None
        else if |rangeAndIncr| == 1 then Some(Range(start, end, 1))
        else
          match Atoi(rangeAndIncr[1]) {
            case None => None
            case Some(incr) => if incr <= 0 then None else Some(Range(start, end, incr))
          }
  }

  function Bounds(rangeAndIncr: seq<string>, min: nat, max: nat): Option<(int, int)>
    requires rangeAndIncr != []
  {
    var startAndEnd := Split(rangeAndIncr[0], '-');
    if |startAndEnd| > 2 then None
    else if startAndEnd[0] == "*" then
      if |startAndEnd| != 1 then None else Some((min, max))
    else
      match Atoi(startAndEnd[0])
      case None => None
      case Some(start) =>
        if |startAndEnd| == 1 then Some((start, if |rangeAndIncr| == 2 then max else start))
        else
          match Atoi(startAndEnd[1]) {
            case None => None
            case Some(end) => Some((start, end))
          }
  }

  /** s is the decimal text of n, perhaps behind a plus sign and zeros. */
  ghost predicate Number(s: string, n: nat) {
    var digits := if s != "" && s[0] == '+' then s[1..] else s;
    Spells(digits, n) && n <= MAX_INT
  }

  /** The six forms of a part, with a, b and c for the numbers in it: *, a, a-b, and each of them with /c. */
  ghost predicate HasForm(part: string, a: string, b: string, c: string, min: nat, max: nat, q: Range) {
    && min <= q.start <= q.end <= max && q.incr > 0
    && ( || (part == "*" && q.start == min && q.end == max && q.incr == 1)
         || (part == a && Number(a, q.start) && q.end == q.start && q.incr == 1)
         || (part == a + "-" + b && Number(a, q.start) && Number(b, q.end) && q.incr == 1)
         || (part == "*" + "/" + c && q.start == min && q.end == max && Number(c, q.incr))
         || (part == a + "/" + c && Number(a, q.start) && q.end == max && Number(c, q.incr))
         || (part == a + "-" + b + "/" + c && Number(a, q.start) && Number(b, q.end) && Number(c, q.incr)))
  }

  /** A number has no sign but plus, no slash and no star; and it is what `Atoi` reads. */
  lemma NumberRead(s: string, n: nat)
    requires Number(s, n)
    ensures Atoi(s) == Some(n) && '-' !in s && '/' !in s && s != "*"
  {
    hide DigitsValue, Spells;
    var digits := if s != "" && s[0] == '+' then s[1..] else s;
    ReadsSpelled(digits, n);
    DigitsOnly(digits);
    assert s == digits || s == ['+'] + digits;
    assert digits[0] in digits;
  }

  /** What `Atoi` reads without a minus sign, or above 0, is a number. */
  lemma ReadNumber(s: string, n: nat)
    requires Atoi(s) == Some(n) && ('-' !in s || n > 0)
    ensures Number(s, n)
  {
    hide DigitsValue, Spells;
    assert s != "" ==> s[0] in s;
    ReadsSpelled(if s != "" && s[0] == '+' then s[1..] else s, n);
  }

  /** The range in front of a slash, or alone. */
  lemma BoundsStar(parts: seq<string>, min: nat, max: nat)
    requires parts != [] && parts[0] == "*"
    ensures Bounds(parts, min, max) == Some((min, max))
  {
    hide Split, Atoi;
    SplitFront("*", "", '-');
  }

  lemma BoundsOne(parts: seq<string>, min: nat, max: nat, n: nat)
    requires parts != [] && Number(parts[0], n)
    ensures Bounds(parts, min, max) == Some((n as int, if |parts| == 2 then max else n))
  {
    hide Split, Number, Atoi;
    NumberRead(parts[0], n);
    SplitFront(parts[0], "", '-');
  }

  lemma BoundsTwo(parts: seq<string>, a: string, b: string, min: nat, max: nat, n: nat, k: nat)
    requires parts != [] && parts[0] == a + "-" + b && Number(a, n) && Number(b, k)
    ensures Bounds(parts, min, max) == Some((n as int, k as int))
  {
    hide Split, Number, Atoi;
    NumberRead(a, n);
    NumberRead(b, k);
    SplitFront(a, b, '-');
    SplitFront(b, "", '-');
    assert [a] + [b] == [a, b];
  }

  /** A range comes from a text of one of three forms. */
  lemma BoundsRead(parts: seq<string>, min: nat, max: nat, start: nat, end: nat) returns (a: string, b: string)
    requires parts != [] && Bounds(parts, min, max) == Some((start as int, end as int))
    ensures || (parts[0] == "*" && start == min && end == max)
      || (parts[0] == a && Number(a, start) && end == if |parts| == 2 then max else start)
      || (parts[0] == a + "-" + b && Number(a, start) && Number(b, end))
  {
    hide Split, Number, Atoi;
    var startAndEnd := Split(parts[0], '-');
    SplitJoins(parts[0], '-');
    a, b := startAndEnd[0], "";
    assert a in startAndEnd;
    if |startAndEnd| == 2 {
      b := startAndEnd[1];
      assert b in startAndEnd && startAndEnd[1..] == [b];
    }
    if a != "*" {
      ReadNumber(a, start);
      if |startAndEnd| == 2 {
        ReadNumber(b, end);
      }
    }
  }

  lemma FormOfRange(part: string, min: nat, max: nat, q: Range) returns (a: string, b: string, c: string)
    requires PartRange(part, min, max) == Some(q)
    ensures HasForm(part, a, b, c, min, max, q)
  {
    hide Split, Bounds, Number, Atoi;
    var parts := Split(part, '/');
    SplitJoins(part, '/');
    a, b := BoundsRead(parts, min, max, q.start, q.end);
    c := "";
    if |parts| == 2 {
      c := parts[1];
      ReadNumber(c, q.incr);
      assert parts[1..] == [c];
    }
  }

  /** The text in front of a slash, and the increment behind it if there is one. */
  lemma RangeOfParts(part: string, front: string, c: string, slash: bool, min: nat, max: nat, q: Range)
    requires '/' !in front && part == (if slash then front + "/" + c else front)
    requires if slash then Number(c, q.incr) else q.incr == 1
    requires Bounds(if slash then [front, c] else [front], min, max) == Some((q.start as int, q.end as int))
    requires min <= q.start <= q.end <= max && q.incr > 0
    ensures PartRange(part, min, max) == Some(q)
  {
    hide Split, Bounds, Number, Atoi;
    SplitFront(front, c, '/');
    if slash {
      NumberRead(c, q.incr);
      SplitFront(c, "", '/');
      assert [front] + [c] == [front, c];
    }
  }

  lemma RangeOfForm(part: string, a: string, b: string, c: string, min: nat, max: nat, q: Range)
    requires HasForm(part, a, b, c, min, max, q)
    ensures PartRange(part, min, max) == Some(q)
  {
    hide PartRange, Bounds, Number;
    if part == "*" && q.start == min && q.end == max && q.incr == 1 {
      BoundsStar(["*"], min, max);
      RangeOfParts(part, "*", c, false, min, max, q);
    } else if part == "*" + "/" + c && q.start == min && q.end == max && Number(c, q.incr) {
      BoundsStar(["*", c], min, max);
      RangeOfParts(part, "*", c, true, min, max, q);
    } else {
      NumberRead(a, q.start);
      var slash := q.incr != 1 || (part != a && part != a + "-" + b);
      RangeOfNumbers(part, a, b, c, min, max, q);
    }
  }

  lemma RangeOfNumbers(part: string, a: string, b: string, c: string, min: nat, max: nat, q: Range)
    requires min <= q.start <= q.end <= max && q.incr > 0 && Number(a, q.start)
    requires
      || (part == a && q.end == q.start && q.incr == 1)
      || (part == a + "-" + b && Number(b, q.end) && q.incr == 1)
      || (part == a + "/" + c && q.end == max && Number(c, q.incr))
      || (part == a + "-" + b + "/" + c && Number(b, q.end) && Number(c, q.incr))
    ensures PartRange(part, min, max) == Some(q)
  {
    hide PartRange, Bounds, Number;
    NumberRead(a, q.start);
    var two := a + "-" + b;
    if part == a && q.end == q.start && q.incr == 1 {
      BoundsOne([a], min, max, q.start);
      RangeOfParts(part, a, c, false, min, max, q);
    } else if part == a + "/" + c && q.end == max && Number(c, q.incr) {
      BoundsOne([a, c], min, max, q.start);
      RangeOfParts(part, a, c, true, min, max, q);
    } else {
      NumberRead(b, q.end);
      if part == two && q.incr == 1 {
        BoundsTwo([two], a, b, min, max, q.start, q.end);
        RangeOfParts(part, two, c, false, min, max, q);
      } else {
        BoundsTwo([two, c], a, b, min, max, q.start, q.end);
        RangeOfParts(part, two, c, true, min, max, q);
      }
    }
  }

  /** The parser of a part accepts exactly the six forms, within the limits, and gives the range that they stand for. */
  lemma SixForms(part: string, min: nat, max: nat, q: Range)
    ensures PartRange(part, min, max) == Some(q) <==>
      exists a: string, b: string, c: string :: HasForm(part, a, b, c, min, max, q)
  {
    hide PartRange, HasForm;
    if PartRange(part, min, max) == Some(q) {
      var a, b, c := FormOfRange(part, min, max, q);
    }
    if a: string, b: string, c: string :| HasForm(part, a, b, c, min, max, q) {
      RangeOfForm(part, a, b, c, min, max, q);
    }
  }

  predicate InRange(r: Range, j: nat) {
    r.incr > 0 && r.start <= j <= r.end && (j - r.start) % r.incr == 0
  }

  /** All parts are well-formed. */
  ghost predicate WellFormed(parts: seq<string>, min: nat, max: nat) {
    forall i | 0 <= i < |parts| :: PartRange(parts[i], min, max).Some?
  }

  /** Some part stands for j. */
  ghost predicate Named(parts: seq<string>, min: nat, max: nat, j: nat) {
    exists i :: 0 <= i < |parts| && PartNames(parts[i], min, max, j)
  }

  ghost predicate PartNames(part: string, min: nat, max: nat, j: nat) {
    var r := PartRange(part, min, max);
    r.Some? && InRange(r.value, j)
  }

  /** The part has one of the six forms, within the limits, and q is the range it stands for. */
  ghost predicate Stands(part: string, min: nat, max: nat, q: Range) {
    exists a: string, b: string, c: string :: HasForm(part, a, b, c, min, max, q)
  }

  ghost predicate HasRange(part: string, min: nat, max: nat) {
    exists q: Range :: Stands(part, min, max, q)
  }

  ghost predicate AllStand(parts: seq<string>, min: nat, max: nat) {
    forall i | 0 <= i < |parts| :: HasRange(parts[i], min, max)
  }

  ghost predicate SomeNames(parts: seq<string>, min: nat, max: nat, j: nat) {
    exists i: nat, q: Range :: i < |parts| && Stands(parts[i], min, max, q) && InRange(q, j)
  }

  lemma StandsIs(part: string, min: nat, max: nat, q: Range)
    ensures Stands(part, min, max, q) <==> PartRange(part, min, max) == Some(q)
  {
    SixForms(part, min, max, q);
  }

  /** What the parts stand for, by their forms and by the parser. */
  lemma FieldForms(parts: seq<string>, min: nat, max: nat)
    ensures WellFormed(parts, min, max) <==> AllStand(parts, min, max)
    ensures forall j: nat :: Named(parts, min, max, j) <==> SomeNames(parts, min, max, j)
  {
    hide PartRange, Stands, InRange, HasRange;
    forall i | 0 <= i < |parts|
      ensures PartRange(parts[i], min, max).Some? <==> HasRange(parts[i], min, max)
    {
      PartStands(parts[i], min, max);
    }
    forall j: nat
      ensures Named(parts, min, max, j) <==> SomeNames(parts, min, max, j)
    {
      if i :| 0 <= i < |parts| && PartNames(parts[i], min, max, j) {
        PartStands(parts[i], min, max);
      }
      if i: nat, q: Range :| i < |parts| && Stands(parts[i], min, max, q) && InRange(q, j) {
        StandsIs(parts[i], min, max, q);
        assert PartNames(parts[i], min, max, j);
      }
    }
  }

  lemma PartStands(part: string, min: nat, max: nat)
    ensures PartRange(part, min, max).Some? <==> HasRange(part, min, max)
    ensures PartRange(part, min, max).Some? ==> Stands(part, min, max, PartRange(part, min, max).value)
  {
    hide PartRange, Stands;
    if PartRange(part, min, max).Some? {
      StandsIs(part, min, max, PartRange(part, min, max).value);
    }
    if q: Range :| Stands(part, min, max, q) {
      StandsIs(part, min, max, q);
    }
  }

  /** `parseCronField`: an error exactly if some part has none of the six forms, or goes beyond the limits; otherwise
      bit j is set exactly if some part stands for j. */
  method ParseField(field: string, min: nat, max: nat) returns (r: Option<nat>)
    requires max < 64
    ensures r.Some? <==> AllStand(Split(field, ','), min, max)
    ensures r.Some? ==> forall j: nat :: Marked(r.value, j) <==> SomeNames(Split(field, ','), min, max, j)
  {
    hide Marked, PartRange, InRange, Split, AllStand, SomeNames;
    var parts := Split(field, ',');
    FieldForms(parts, min, max);
    var mask, i := 0, 0;
    Nothing();
    while i < |parts|
      invariant 0 <= i <= |parts| && WellFormed(parts[..i], min, max)
      invariant forall j: nat :: Marked(mask, j) <==> Named(parts[..i], min, max, j)
    {
      var q := PartRange(parts[i], min, max);
      if q.None? {
        return None;
      }
      PartInBounds(parts[i], min, max);
      ghost var was := mask;
      mask := AddRange(mask, q.value);
      OneMorePart(parts, i, min, max);
      i := i + 1;
    }
    assert parts[..i] == parts;
    r := Some(mask);
  }

  lemma Nothing()
    ensures forall j: nat :: !Marked(0, j)
  {
    forall j: nat
      ensures !Marked(0, j)
    {
      ZeroHasNone(j);
    }
  }

  lemma PartInBounds(part: string, min: nat, max: nat)
    requires PartRange(part, min, max).Some?
    ensures var q := PartRange(part, min, max).value; q.start <= q.end <= max && q.incr > 0 && min <= q.start
  {
    hide Split, Atoi;
  }

  lemma OneMorePart(parts: seq<string>, i: nat, min: nat, max: nat)
    requires i < |parts|
    ensures WellFormed(parts[..i + 1], min, max) <==>
      WellFormed(parts[..i], min, max) && PartRange(parts[i], min, max).Some?
    ensures forall j: nat ::
      Named(parts[..i + 1], min, max, j) <==> Named(parts[..i], min, max, j) || PartNames(parts[i], min, max, j)
  {
    hide PartRange, PartNames;
    var all := parts[..i + 1];
    assert all[i] == parts[i] && forall k | 0 <= k < i :: all[k] == parts[..i][k];
    forall j: nat
      ensures Named(all, min, max, j) <==> Named(parts[..i], min, max, j) || PartNames(parts[i], min, max, j)
    {
      if k :| 0 <= k < |parts[..i]| && PartNames(parts[..i][k], min, max, j) {
        assert PartNames(all[k], min, max, j);
      }
      if PartNames(parts[i], min, max, j) {
        assert PartNames(all[i], min, max, j);
      }
    }
  }

  /** The part's bits are added to the mask. */
  method AddRange(mask0: nat, q: Range) returns (mask: nat)
    requires q.start <= q.end < 64 && q.incr > 0
    ensures forall j: nat :: Marked(mask, j) <==> Marked(mask0, j) || InRange(q, j)
  {
    hide Marked, Or, RangeMask;
    if q.incr == 1 {
      mask := Or(mask0, RangeMask(q.start, q.end));
      forall j: nat
        ensures Marked(mask, j) <==> Marked(mask0, j) || InRange(q, j)
      {
        OrBits(mask0, RangeMask(q.start, q.end), j);
        RangeBits(q.start, q.end, j);
      }
    } else {
      mask := mask0;
      var i := q.start;
      while i <= q.end
        invariant i >= q.start && (i - q.start) % q.incr == 0
        invariant forall j: nat :: Marked(mask, j) <==> Marked(mask0, j) || (InRange(q, j) && j < i)
        decreases q.end + 1 - i
      {
        ghost var was := mask;
        mask := Mark(mask, i);
        forall j: nat
          ensures Marked(mask, j) <==> Marked(mask0, j) || (InRange(q, j) && j < i + q.incr)
        {
          MarkSets(was, i, j);
          NextInRange(q, i, j);
        }
        StepAligned(i - q.start, q.incr);
        i := i + q.incr;
      }
    }
  }

  /** Between one value of a range and the next there is none. */
  lemma NextInRange(q: Range, i: nat, j: nat)
    requires q.incr > 0 && i >= q.start && (i - q.start) % q.incr == 0 && i <= q.end
    ensures InRange(q, j) && i <= j < i + q.incr ==> j == i
    ensures InRange(q, i)
  {
    if InRange(q, j) && i <= j < i + q.incr {
      var a, b, m := j - q.start, i - q.start, q.incr;
      assert a == a / m * m && b == b / m * m;
      TreeIndex.SmallMultiple(a / m - b / m, m);
    }
  }

  lemma StepAligned(a: nat, m: nat)
    requires m > 0 && a % m == 0
    ensures (a + m) % m == 0
  {
    assert a == a / m * m;
    assert a + m == (a / m + 1) * m;
    TreeIndex.MulMod(a / m + 1, m);
  }
}
