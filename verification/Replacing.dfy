/** What replaces a match in `string.gsub`. */
module Replacing {
  import opened CaptureFacts
  import opened Find
  import opened Numerals
  import opened Patterns

  /** The replacement: a template, a function of the captures, or a table indexed by the first capture. */
  datatype Replacement = Template(t: string) | Function(f: seq<Value> -> Value) | Table(g: Value -> Value)

  /** `push_onecapture` for the match from s to e. */
  ghost function OneCapture(src: string, caps: seq<Capture>, i: nat, s: nat, e: nat): Result<Value>
    requires s <= e <= |src| && Within(src, caps)
  {
    if i >= |caps| then
      if i == 0 then Ok(Str(src[s..e])) else Error(InvalidCaptureIndex)
    else
      assert MadeOne(caps[i], |src|);
      match CaptureValue(src, caps[i])
      case None => Error(UnfinishedCapture)
      case Some(v) => Ok(v)
  }

  /** What `luaL_addvalue` adds for a value; nothing is added for nil and for other values. */
  function Text(v: Value): string {
    match v
    case Num(n) => Signed(n)
    case Str(s) => s
    case _ => ""
  }

  /** `add_s`: the template from i on, filled in for the match from s to e. */
  ghost function Fill(src: string, t: string, i: nat, caps: seq<Capture>, s: nat, e: nat): Result<string>
    requires s <= e <= |src| && Within(src, caps)
    decreases |t| - i
  {
    if i >= |t| then Ok("")
    else if t[i] != ESC then Before([t[i]], Fill(src, t, i + 1, caps, s, e))
    else
      var d := At(t, i + 1);
      if !IsDigit(d) then Before([d], Fill(src, t, i + 2, caps, s, e))
      else if d == '0' then Before(src[s..e], Fill(src, t, i + 2, caps, s, e))
      else
        match OneCapture(src, caps, d as int - '1' as int, s, e) {
          case Error(err) => Error(err)
          case Ok(v) => Before(Text(v), Fill(src, t, i + 2, caps, s, e))
        }
  }

  function Before(a: string, r: Result<string>): Result<string> {
    match r
    case Ok(b) => Ok(a + b)
    case Error(e) => Error(e)
  }

  /** `add_value`: what replaces the match from s to e. */
  ghost function Replaced(src: string, repl: Replacement, caps: seq<Capture>, s: nat, e: nat): Result<string>
    requires s <= e <= |src| && Within(src, caps)
  {
    match repl
    case Template(t) => Fill(src, t, 0, caps, s, e)
    case Function(f) =>
      var args := if caps == [] then Ok([Str(src[s..e])]) else CaptureValues(src, caps);
      if args.Error? then Error(args.error) else Chosen(src[s..e], f(args.value))
    case Table(g) =>
      var key := OneCapture(src, caps, 0, s, e);
      if key.Error? then Error(key.error) else Chosen(src[s..e], g(key.value))
  }

  /** Nil keeps the original text; numbers and strings replace it; other values are an error. */
  function Chosen(text: string, v: Value): Result<string> {
    if v.Nil? then Ok(text) else if v.Other? then Error(InvalidReplacement) else Ok(Text(v))
  }

  // ----- templates, piece by piece -----

  /** A part of a template: a character, one behind an escape, a reference to the match or to a capture, and an escape
      at the end. */
  datatype Part = Char(c: char) | Escaped(c: char) | Ref(digit: char) | Trailing

  function PartText(x: Part): string {
    match x
    case Char(c) => [c]
    case Escaped(c) => [ESC, c]
    case Ref(digit) => [ESC, digit]
    case Trailing => [ESC]
  }

  predicate GoodPart(x: Part) {
    match x
    case Char(c) => c != ESC
    case Escaped(c) => !IsDigit(c)
    case Ref(digit) => IsDigit(digit)
    case Trailing => true
  }

  /** The template from i on is written from these parts. */
  ghost predicate Composed(t: string, i: nat, parts: seq<Part>)
    decreases |parts|
  {
    if parts == [] then i == |t|
    else
      var x, n := parts[0], |PartText(parts[0])|;
      GoodPart(x) && i + n <= |t| && t[i..i + n] == PartText(x) && (x.Trailing? ==> i + n == |t|) &&
      Composed(t, i + n, parts[1..])
  }

  /** The text of a value: that of a number is decimal. */
  ghost predicate HasText(v: Value, w: string) {
    (v.Str? && w == v.s) || (v.Num? && w == Signed(v.n))
  }

  /** A part adds w for the match from s to e. */
  ghost predicate Adds(src: string, x: Part, caps: seq<Capture>, s: nat, e: nat, w: string)
    requires s <= e <= |src|
  {
    match x
    case Char(c) => w == [c]
    case Escaped(c) => w == [c]
    case Trailing => w == ['\0']
    case Ref(digit) =>
      var k := digit as int - '0' as int;
      if k == 0 || (k == 1 && caps == []) then w == src[s..e]
      else 1 <= k <= |caps| && exists v: Value :: Encloses(src, caps[k - 1], v) && HasText(v, w)
  }

  /** A part refers to a capture that is not there, or not finished. */
  ghost predicate Refuses(x: Part, caps: seq<Capture>, err: MatchError) {
    x.Ref? &&
    var k := x.digit as int - '0' as int;
    || (k > |caps| && !(k == 1 && caps == []) && err == InvalidCaptureIndex)
    || (1 <= k <= |caps| && caps[k - 1].len == CAP_UNFINISHED && err == UnfinishedCapture)
  }

  /** What the parts give one after the other, or the first error among them. */
  ghost predicate Filled(src: string, parts: seq<Part>, caps: seq<Capture>, s: nat, e: nat, r: Result<string>)
    requires s <= e <= |src|
    decreases |parts|
  {
    if parts == [] then r == Ok("")
    else
      || (r.Error? && Refuses(parts[0], caps, r.error))
      || exists w: string, rest: Result<string> ::
           && Adds(src, parts[0], caps, s, e, w) && Filled(src, parts[1..], caps, s, e, rest)
           && r == if rest.Ok? then Ok(w + rest.value) else rest
  }

  /** Every template is written from parts. */
  lemma {:induction false} Compose(t: string, i: nat) returns (parts: seq<Part>)
    requires i <= |t|
    ensures Composed(t, i, parts)
    decreases |t| - i
  {
    if i == |t| {
      parts := [];
    } else {
      var x :=
        if t[i] != ESC then Char(t[i])
        else if i + 1 == |t| then Trailing
        else if IsDigit(t[i + 1]) then Ref(t[i + 1])
        else Escaped(t[i + 1]);
      var rest := Compose(t, i + |PartText(x)|);
      parts := [x] + rest;
      assert parts[1..] == rest;
    }
  }

  lemma CaptureAdds(src: string, caps: seq<Capture>, k: nat, s: nat, e: nat)
    requires s <= e <= |src| && Within(src, caps) && k < 9
    ensures var v, x := OneCapture(src, caps, k, s, e), Ref(Digit(k + 1));
      if v.Ok? then Adds(src, x, caps, s, e, Text(v.value)) else Refuses(x, caps, v.error)
  {
    if k < |caps| {
      assert MadeOne(caps[k], |src|);
      EnclosesValue(src, caps[k]);
      var v := CaptureValue(src, caps[k]);
      if v.Some? {
        assert HasText(v.value, Text(v.value));
      }
    }
  }

  /** Filling the template does what its parts do. */
  lemma {:induction false} FillParts(src: string, t: string, i: nat, parts: seq<Part>, caps: seq<Capture>, s: nat,
      e: nat)
    requires s <= e <= |src| && Within(src, caps) && i <= |t| && Composed(t, i, parts)
    ensures Filled(src, parts, caps, s, e, Fill(src, t, i, caps, s, e))
    decreases |parts|
  {
    hide OneCapture, Within, Adds, Refuses, Text;
    if parts != [] {
      var n := |PartText(parts[0])|;
      FillParts(src, t, i + n, parts[1..], caps, s, e);
      FillPart(src, t, i, parts[0], caps, s, e);
    }
  }

  /** One part of it. */
  lemma FillPart(src: string, t: string, i: nat, x: Part, caps: seq<Capture>, s: nat, e: nat)
    requires s <= e <= |src| && Within(src, caps)
    requires var n := |PartText(x)|;
      GoodPart(x) && i + n <= |t| && t[i..i + n] == PartText(x) && (x.Trailing? ==> i + n == |t|)
    ensures var r, rest := Fill(src, t, i, caps, s, e), Fill(src, t, i + |PartText(x)|, caps, s, e);
      || (r.Error? && Refuses(x, caps, r.error))
      || exists w: string :: Adds(src, x, caps, s, e, w) && r == Before(w, rest)
  {
    hide OneCapture, Within, Text;
    var n := |PartText(x)|;
    assert t[i..i + n][0] == t[i];
    if n == 2 {
      assert t[i..i + n][1] == t[i + 1];
    }
    if x.Ref? && x.digit != '0' {
      CaptureAdds(src, caps, x.digit as int - '1' as int, s, e);
    } else {
      var w := if x.Ref? then src[s..e] else if x.Trailing? then ['\0'] else [x.c];
      assert Adds(src, x, caps, s, e, w);
    }
  }

  // ----- replacements -----

  /** What a value that was answered puts in place of the text: nil keeps it, numbers and strings replace it. */
  ghost predicate Puts(text: string, v: Value, r: Result<string>) {
    match v
    case Nil => r == Ok(text)
    case Num(n) => r == Ok(Signed(n))
    case Str(t) => r == Ok(t)
    case Other => r == Error(InvalidReplacement)
  }

  /** r replaces the match from s to e, which has these captures. A function gets all captures, and a table is indexed
      by the first, or by the match if there are none. */
  ghost predicate Replaces(src: string, repl: Replacement, caps: seq<Capture>, s: nat, e: nat, r: Result<string>)
    requires s <= e <= |src|
  {
    match repl
    case Template(t) => exists parts: seq<Part> :: Composed(t, 0, parts) && Filled(src, parts, caps, s, e, r)
    case Function(f) =>
      if Unfinished(caps) then r == Error(UnfinishedCapture)
      else exists vs: seq<Value> :: CapturesGive(src, false, s, e, caps, vs) && Puts(src[s..e], f(vs), r)
    case Table(g) =>
      if caps != [] && caps[0].len == CAP_UNFINISHED then r == Error(UnfinishedCapture)
      else exists v: Value ::
          Encloses(src, if caps == [] then Capture(s, e - s) else caps[0], v) && Puts(src[s..e], g(v), r)
  }

  lemma ChosenPuts(text: string, v: Value)
    ensures Puts(text, v, Chosen(text, v))
  {
  }

  lemma ReplacedReplaces(src: string, repl: Replacement, caps: seq<Capture>, s: nat, e: nat)
    requires s <= e <= |src| && Within(src, caps)
    ensures Replaces(src, repl, caps, s, e, Replaced(src, repl, caps, s, e))
  {
    hide Within, Fill, Puts, Chosen, Filled, Composed, Unfinished;
    match repl
    case Template(t) =>
      var parts := Compose(t, 0);
      FillParts(src, t, 0, parts, caps, s, e);
    case Function(f) =>
      ArgumentsGiven(src, caps, s, e);
      if !Unfinished(caps) {
        var vs := if caps == [] then [Str(src[s..e])] else CaptureValues(src, caps).value;
        ChosenPuts(src[s..e], f(vs));
      }
    case Table(g) =>
      KeyGiven(src, caps, s, e);
      var v := OneCapture(src, caps, 0, s, e);
      if v.Ok? {
        ChosenPuts(src[s..e], g(v.value));
      }
  }

  lemma ArgumentsGiven(src: string, caps: seq<Capture>, s: nat, e: nat)
    requires s <= e <= |src| && Within(src, caps)
    ensures var r := if caps == [] then Ok([Str(src[s..e])]) else CaptureValues(src, caps);
      if Unfinished(caps) then r == Error(UnfinishedCapture)
      else r.Ok? && CapturesGive(src, false, s, e, caps, r.value)
  {
    if caps == [] {
      WholeText(src, s, e, caps);
    } else {
      ValuesEnclosed(src, caps);
    }
  }

  lemma KeyGiven(src: string, caps: seq<Capture>, s: nat, e: nat)
    requires s <= e <= |src| && Within(src, caps)
    ensures var r := OneCapture(src, caps, 0, s, e);
      if caps != [] && caps[0].len == CAP_UNFINISHED then r == Error(UnfinishedCapture)
      else r.Ok? && Encloses(src, if caps == [] then Capture(s, e - s) else caps[0], r.value)
  {
    if caps == [] {
      WholeText(src, s, e, caps);
      assert Encloses(src, [Capture(s, e - s)][0], [Str(src[s..e])][0]);
    } else {
      assert MadeOne(caps[0], |src|);
      EnclosesValue(src, caps[0]);
    }
  }

  /** Every match is replaced by itself. */
  ghost predicate KeepsAll(repl: Replacement) {
    match repl
    case Template(t) => t == "%0"
    case Function(f) => forall vs: seq<Value> :: f(vs) == Nil
    case Table(g) => forall v: Value :: g(v) == Nil
  }

  /** Every match is replaced by t. */
  ghost predicate PutsAlways(repl: Replacement, t: string) {
    match repl
    case Template(s) => s == t && ESC !in t
    case Function(f) => forall vs: seq<Value> :: f(vs) == Str(t)
    case Table(g) => forall v: Value :: g(v) == Str(t)
  }

  lemma KeptText(src: string, repl: Replacement, caps: seq<Capture>, s: nat, e: nat)
    requires s <= e <= |src| && Within(src, caps) && KeepsAll(repl) && Replaced(src, repl, caps, s, e).Ok?
    ensures Replaced(src, repl, caps, s, e).value == src[s..e]
  {
    hide Within, CaptureValues, OneCapture;
    if repl.Template? {
      assert Fill(src, "%0", 2, caps, s, e) == Ok("");
      assert src[s..e] + "" == src[s..e];
    }
  }

  lemma SameText(src: string, repl: Replacement, t: string, caps: seq<Capture>, s: nat, e: nat)
    requires s <= e <= |src| && Within(src, caps) && PutsAlways(repl, t) && Replaced(src, repl, caps, s, e).Ok?
    ensures Replaced(src, repl, caps, s, e).value == t
  {
    hide Within, CaptureValues, OneCapture, Fill;
    if repl.Template? {
      FillPlain(src, t, 0, caps, s, e);
      assert t[0..] == t;
    }
  }

  lemma {:induction false} FillPlain(src: string, t: string, i: nat, caps: seq<Capture>, s: nat, e: nat)
    requires s <= e <= |src| && Within(src, caps) && i <= |t| && ESC !in t
    ensures Fill(src, t, i, caps, s, e) == Ok(t[i..])
    decreases |t| - i
  {
    hide Within, OneCapture;
    if i < |t| {
      assert t[i] in t;
      FillPlain(src, t, i + 1, caps, s, e);
      assert t[i..] == [t[i]] + t[i + 1..];
    } else {
      assert t[i..] == "";
    }
  }
}
