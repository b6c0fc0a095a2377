/** Cron expressions as text, and at which times they are due. */
module CronText {
  import opened BinMap
  import opened Calendar
  import opened Common
  import opened Cron
  import opened CronParse
  import TreeIndex

  // ----- words -----

  /** `unicode.IsSpace` */
  predicate IsSpace(c: char) {
    var n := c as int;
    || 9 <= n <= 13 || n == 32 || n == 0x85 || n == 0xa0 || n == 0x1680 || 0x2000 <= n <= 0x200a
    || n == 0x2028 || n == 0x2029 || n == 0x202f || n == 0x205f || n == 0x3000
  }

  ghost predicate AllSpace(s: string) {
    forall c | c in s :: IsSpace(c)
  }

  ghost predicate Word(s: string) {
    s != "" && forall c | c in s :: !IsSpace(c)
  }

  /** Where the word at the start of s ends. */
  function WordEnd(s: string): (n: nat)
    ensures n <= |s| && (n < |s| ==> IsSpace(s[n])) && forall c | c in s[..n] :: !IsSpace(c)
  {
    if s == "" || IsSpace(s[0]) then 0
    else
      assert s[..WordEnd(s[1..]) + 1] == [s[0]] + s[1..][..WordEnd(s[1..])];
      WordEnd(s[1..]) + 1
  }

  /** `strings.Fields` */
  function Words(s: string): seq<string>
    decreases |s|
  {
    if s == "" then []
    else if IsSpace(s[0]) then Words(s[1..])
    else [s[..WordEnd(s)]] + Words(s[WordEnd(s)..])
  }

  /** The text is these words with space around and between them. */
  ghost predicate Laid(s: string, words: seq<string>)
    decreases |words|
  {
    if words == [] then AllSpace(s)
    else exists a: string, b: string ::
        && s == a + words[0] + b && AllSpace(a) && Word(words[0]) && (b == "" || IsSpace(b[0])) && Laid(b, words[1..])
  }

  /** A text is split into exactly the words that it is laid out from. */
  lemma {:induction false} WordsLaid(s: string, words: seq<string>)
    requires Laid(s, words)
    ensures Words(s) == words
    decreases |words|
  {
    hide Laid;
    if words == [] {
      SpaceOnly(s);
    } else {
      var a, b := LaidFirst(s, words);
      SpaceBefore(a, words[0] + b);
      assert a + words[0] + b == a + (words[0] + b);
      WordFirst(words[0], b);
      WordsLaid(b, words[1..]);
    }
  }

  lemma LaidFirst(s: string, words: seq<string>) returns (a: string, b: string)
    requires words != [] && Laid(s, words)
    ensures s == a + words[0] + b && AllSpace(a) && Word(words[0]) && (b == "" || IsSpace(b[0])) && Laid(b, words[1..])
  {
    a, b :| s == a + words[0] + b && AllSpace(a) && Word(words[0]) && (b == "" || IsSpace(b[0])) && Laid(b, words[1..]);
  }

  lemma SpaceOnly(s: string)
    requires Laid(s, [])
    ensures Words(s) == []
  {
    SpaceBefore(s, "");
    assert s + "" == s;
  }

  lemma {:induction false} SpaceBefore(a: string, b: string)
    requires AllSpace(a)
    ensures Words(a + b) == Words(b)
  {
    hide IsSpace;
    if a == "" {
      assert a + b == b;
    } else {
      assert a[0] in a && forall c | c in a[1..] :: c in a;
      SpaceBefore(a[1..], b);
      assert (a + b)[1..] == a[1..] + b;
    }
  }

  lemma WordFirst(w: string, b: string)
    requires Word(w) && (b == "" || IsSpace(b[0]))
    ensures Words(w + b) == [w] + Words(b)
  {
    hide IsSpace;
    WordEnds(w, b);
    assert (w + b)[0] == w[0] && w[0] in w;
    assert (w + b)[..|w|] == w && (w + b)[|w|..] == b;
  }

  lemma {:induction false} WordEnds(w: string, b: string)
    requires (forall c | c in w :: !IsSpace(c)) && (b == "" || IsSpace(b[0]))
    ensures WordEnd(w + b) == |w|
  {
    hide IsSpace;
    if w == "" {
      assert w + b == b;
    } else {
      assert w[0] in w && forall c | c in w[1..] :: c in w;
      WordEnds(w[1..], b);
      assert (w + b)[1..] == w[1..] + b;
    }
  }

  // ----- when an expression is due -----

  ghost predicate WellFormedField(field: string, min: nat, max: nat) {
    AllStand(Split(field, ','), min, max)
  }

  /** Some part of the field stands for j. */
  ghost predicate Says(field: string, min: nat, max: nat, j: nat) {
    SomeNames(Split(field, ','), min, max, j)
  }

  /** The field leaves nothing out. */
  ghost predicate Blank(field: string, min: nat, max: nat) {
    forall j: nat | min <= j <= max :: Says(field, min, max, j)
  }

  /** The fields: seconds, minutes, hours, days of the month, months and days of the week. */
  ghost predicate AllWellFormed(f: seq<string>)
    requires |f| == 6
  {
    && WellFormedField(f[0], 0, 59) && WellFormedField(f[1], 0, 59) && WellFormedField(f[2], 0, 23)
    && WellFormedField(f[3], 1, 31) && WellFormedField(f[4], 1, 12) && WellFormedField(f[5], 0, 6)
  }

  /** The day is due: when one of the two fields for days is blank, the other one alone decides. */
  ghost predicate DayDue(f: seq<string>, t: nat)
    requires |f| == 6
  {
    var date, weekday := Says(f[3], 1, 31, Day(t)), Says(f[5], 0, 6, Weekday(t));
    if Blank(f[3], 1, 31) then weekday else if Blank(f[5], 0, 6) then date else date || weekday
  }

  ghost predicate Due(f: seq<string>, t: nat)
    requires |f| == 6
  {
    && Says(f[4], 1, 12, Month(t)) && DayDue(f, t)
    && Says(f[2], 0, 23, Hour(t)) && Says(f[1], 0, 59, Minute(t)) && Says(f[0], 0, 59, Second(t))
  }

  // ----- masks -----

  /** The mask has exactly the values that the field says. */
  ghost predicate Means(mask: nat, field: string, min: nat, max: nat) {
    forall j: nat :: Marked(mask, j) <==> Says(field, min, max, j)
  }

  lemma {:induction false} SameMask(a: nat, b: nat)
    requires forall j: nat :: Marked(a, j) <==> Marked(b, j)
    ensures a == b
    decreases a + b
  {
    assert Marked(a, 0) <==> Marked(b, 0);
    if a > 0 || b > 0 {
      forall j: nat
        ensures Marked(a / 2, j) <==> Marked(b / 2, j)
      {
        assert Marked(a, j + 1) <==> Marked(b, j + 1);
      }
      SameMask(a / 2, b / 2);
    }
  }

  lemma SaysWithin(field: string, min: nat, max: nat, j: nat)
    requires Says(field, min, max, j)
    ensures min <= j <= max
  {
    hide HasForm;
    var parts := Split(field, ',');
    var i: nat, q: Range :| i < |parts| && Stands(parts[i], min, max, q) && InRange(q, j);
    StandsWithin(parts[i], min, max, q);
  }

  lemma StandsWithin(part: string, min: nat, max: nat, q: Range)
    requires Stands(part, min, max, q)
    ensures min <= q.start <= q.end <= max
  {
    hide Number;
    var a: string, b: string, c: string :| HasForm(part, a, b, c, min, max, q);
  }

  /** The mask of the values from lo to hi. */
  function Full(lo: nat, hi: nat): nat
    requires lo <= hi
  {
    ShiftLeft(Ones(hi + 1 - lo), lo)
  }

  lemma FullBits(lo: nat, hi: nat, j: nat)
    requires lo <= hi
    ensures Marked(Full(lo, hi), j) <==> lo <= j <= hi
  {
    hide Marked, ShiftLeft, Ones;
    ShiftLeftMoves(Ones(hi + 1 - lo), lo, j);
    if j >= lo {
      OnesBits(hi + 1 - lo, j - lo);
    }
  }

  /** A field is blank if and only if its mask is full. */
  lemma BlankMask(mask: nat, field: string, min: nat, max: nat)
    requires min <= max && Means(mask, field, min, max)
    ensures Blank(field, min, max) <==> mask == Full(min, max)
  {
    hide Marked, Says, Full;
    forall j: nat
      ensures Says(field, min, max, j) ==> min <= j <= max
      ensures Marked(Full(min, max), j) <==> min <= j <= max
    {
      if Says(field, min, max, j) {
        SaysWithin(field, min, max, j);
      }
      FullBits(min, max, j);
    }
    if Blank(field, min, max) {
      forall j: nat
        ensures Marked(mask, j) <==> Marked(Full(min, max), j)
      {
      }
      SameMask(mask, Full(min, max));
    }
  }

  lemma {:induction false} OnesAre(w: nat)
    ensures Ones(w) + 1 == TreeIndex.Pow2(w)
  {
    if w > 0 {
      OnesAre(w - 1);
    }
  }

  /** The two masks that `matchDay` takes for blank. */
  lemma FullMasks()
    ensures Full(1, 31) == 0xffff_fffe && Full(0, 6) == 0x7f
  {
    hide Ones;
    OnesAre(31);
    OnesAre(7);
    TreeIndex.Pow2Values();
    assert ShiftLeft(Ones(31), 1) == 2 * ShiftLeft(Ones(31), 0);
  }

  lemma DayMeans(e: CronExpr, f: seq<string>, t: nat)
    requires |f| == 6 && Means(e.dom, f[3], 1, 31) && Means(e.dow, f[5], 0, 6)
    ensures MatchDay(e, t) <==> DayDue(f, t)
  {
    hide Marked, Says, Blank, Day, Weekday, Full;
    BlankMask(e.dom, f[3], 1, 31);
    BlankMask(e.dow, f[5], 0, 6);
    FullMasks();
  }

  lemma MatchesDue(e: CronExpr, f: seq<string>, t: nat)
    requires |f| == 6
    requires Means(e.sec, f[0], 0, 59) && Means(e.min, f[1], 0, 59) && Means(e.hour, f[2], 0, 23)
    requires Means(e.dom, f[3], 1, 31) && Means(e.month, f[4], 1, 12) && Means(e.dow, f[5], 0, 6)
    ensures Matches(e, t) <==> Due(f, t)
  {
    hide Marked, Says, MatchDay, DayDue, Month, Hour, Minute, Second;
    DayMeans(e, f, t);
  }

  // ----- the parser -----

  /** The words of an expression, with the seconds added if there are only five. */
  function Six(words: seq<string>): (f: seq<string>)
    requires |words| == 5 || |words| == 6
    ensures |f| == 6
  {
    if |words| == 5 then ["0"] + words else words
  }

  /** `NewCronExpr`: None stands for an error. */
  method NewCronExpr(expr: string) returns (r: Option<CronExpr>)
    ensures var words := Words(expr);
      r.Some? <==> (|words| == 5 || |words| == 6) && AllWellFormed(Six(words))
    ensures r.Some? ==> forall t: nat :: Matches(r.value, t) <==> Due(Six(Words(expr)), t)
  {
    hide Words, AllStand, SomeNames, Split, Marked, Matches, Due;
    var fields := Words(expr);
    if |fields| != 5 && |fields| != 6 {
      return None;
    }
    if |fields| == 5 {
      fields := ["0"] + fields;
    }
    var sec := ParseField(fields[0], 0, 59);
    if sec.None? {
      return None;
    }
    var min := ParseField(fields[1], 0, 59);
    if min.None? {
      return None;
    }
    var hour := ParseField(fields[2], 0, 23);
    if hour.None? {
      return None;
    }
    var dom := ParseField(fields[3], 1, 31);
    if dom.None? {
      return None;
    }
    var month := ParseField(fields[4], 1, 12);
    if month.None? {
      return None;
    }
    var dow := ParseField(fields[5], 0, 6);
    if dow.None? {
      return None;
    }
    var e := CronExpr(sec.value, min.value, hour.value, dom.value, month.value, dow.value);
    forall t: nat
      ensures Matches(e, t) <==> Due(fields, t)
    {
      MatchesDue(e, fields, t);
    }
    r := Some(e);
  }
}
