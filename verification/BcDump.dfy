/** Bytecode dumps: a header, then the prototypes, children before their parents, and a zero byte. Each function puts
    its value in front of the bytes that follow. */
module BcDump {
  import opened ByteOrder

  const WORD := 0x1_0000_0000

  /** A key or value of a constant table. */
  datatype Key = Nil | False | True | Int(n: nat) | Num(lo: nat, hi: nat) | Text(bytes: seq<Byte>)

  datatype Const =
    | Child(proto: Proto)
    | Table(entries: seq<Key>, pairs: seq<(Key, Key)>)
    | I64(lo: nat, hi: nat) | U64(lo: nat, hi: nat)
    | Complex(rlo: nat, rhi: nat, ilo: nat, ihi: nat)
    | Str(bytes: seq<Byte>)

  /** A number constant: an integer, or the two words of a double. */
  datatype Number = Integer(n: nat) | Double(lo: nat, hi: nat)

  /** Line numbers, relative to the first line, and the names of upvalues and variables. */
  datatype Debug = NoDebug | Lines(firstline: nat, numline: nat, lines: seq<nat>, names: seq<Byte>)

  datatype Proto = Proto(flags: nat, numparams: nat, framesize: nat, bc: seq<nat>, uv: seq<nat>, kgc: seq<Const>,
    knum: seq<Number>, debug: Debug)

  /** The flags of a dump: whether words are in big-endian order, debug information is left out, the FFI is needed. */
  datatype Flags = Flags(be: bool, strip: bool, ffi: bool)

  function FlagBits(f: Flags): nat {
    (if f.be then 1 else 0) + (if f.strip then 2 else 0) + (if f.ffi then 4 else 0)
  }

  // ----- the fields -----

  /** n in groups of seven bits, the least significant first (section 7.6 of DWARF 4). */
  function PutUleb(n: nat, rest: seq<Byte>): (s: seq<Byte>)
    ensures |s| > |rest|
  {
    if n < 0x80 then [n] + rest else [n % 0x80 + 0x80] + PutUleb(n / 0x80, rest)
  }

  /** The value of groups of seven bits. */
  function UlebValue(s: seq<Byte>): nat {
    if s == [] then 0 else s[0] % 128 + 128 * UlebValue(s[1..])
  }

  /** The last group is marked by its upper bit. */
  lemma {:induction false} UlebMeans(n: nat)
    ensures var s := PutUleb(n, []);
      && UlebValue(s) == n && (forall i | 0 <= i < |s| - 1 :: s[i] >= 128) && s[|s| - 1] < 128
  {
    if n >= 128 {
      UlebMeans(n / 128);
      var s := PutUleb(n, []);
      assert s == [n % 128 + 128] + PutUleb(n / 128, []);
      assert s[1..] == PutUleb(n / 128, []);
    }
  }

  function PutWord(n: nat, width: nat, be: bool, rest: seq<Byte>): (s: seq<Byte>)
    ensures |s| == width + |rest|
  {
    (if be then Reversed(Little(n, width)) else Little(n, width)) + rest
  }

  function PutWords(words: seq<nat>, width: nat, be: bool, rest: seq<Byte>): (s: seq<Byte>)
    ensures |s| == width * |words| + |rest|
  {
    if words == [] then rest else PutWord(words[0], width, be, PutWords(words[1..], width, be, rest))
  }

  function PutKey(k: Key, rest: seq<Byte>): seq<Byte> {
    match k
    case Nil => PutUleb(0, rest)
    case False => PutUleb(1, rest)
    case True => PutUleb(2, rest)
    case Int(n) => PutUleb(3, PutUleb(n, rest))
    case Num(lo, hi) => PutUleb(4, PutUleb(lo, PutUleb(hi, rest)))
    case Text(bytes) => PutUleb(5 + |bytes|, bytes + rest)
  }

  function PutKeys(keys: seq<Key>, rest: seq<Byte>): seq<Byte> {
    if keys == [] then rest else PutKey(keys[0], PutKeys(keys[1..], rest))
  }

  function PutPairs(pairs: seq<(Key, Key)>, rest: seq<Byte>): seq<Byte> {
    if pairs == [] then rest else PutKey(pairs[0].0, PutKey(pairs[0].1, PutPairs(pairs[1..], rest)))
  }

  function PutConst(c: Const, rest: seq<Byte>): seq<Byte> {
    match c
    case Child(_) => PutUleb(0, rest)
    case Table(entries, pairs) =>
      PutUleb(1, PutUleb(|entries|, PutUleb(|pairs|, PutKeys(entries, PutPairs(pairs, rest)))))
    case I64(lo, hi) => PutUleb(2, PutUleb(lo, PutUleb(hi, rest)))
    case U64(lo, hi) => PutUleb(3, PutUleb(lo, PutUleb(hi, rest)))
    case Complex(rlo, rhi, ilo, ihi) =>
      PutUleb(4, PutUleb(rlo, PutUleb(rhi, PutUleb(ilo, PutUleb(ihi, rest)))))
    case Str(bytes) => PutUleb(5 + |bytes|, bytes + rest)
  }

  function PutConsts(consts: seq<Const>, rest: seq<Byte>): seq<Byte> {
    if consts == [] then rest else PutConst(consts[0], PutConsts(consts[1..], rest))
  }

  /** The least significant bit tells the two kinds apart. */
  function PutNumber(n: Number, rest: seq<Byte>): seq<Byte> {
    match n
    case Integer(n) => PutUleb(2 * n, rest)
    case Double(lo, hi) => PutUleb(2 * lo + 1, PutUleb(hi, rest))
  }

  function PutNumbers(numbers: seq<Number>, rest: seq<Byte>): seq<Byte> {
    if numbers == [] then rest else PutNumber(numbers[0], PutNumbers(numbers[1..], rest))
  }

  /** The bytes of a line number. */
  function LineWidth(numline: nat): nat {
    if numline < 0x100 then 1 else if numline < 0x1_0000 then 2 else 4
  }

  function DebugSize(d: Debug): nat {
    match d
    case NoDebug => 0
    case Lines(_, numline, lines, names) => LineWidth(numline) * |lines| + |names|
  }

  function PutDebugHead(d: Debug, rest: seq<Byte>): seq<Byte> {
    match d
    case NoDebug => PutUleb(0, rest)
    case Lines(firstline, numline, _, _) => PutUleb(DebugSize(d), PutUleb(firstline, PutUleb(numline, rest)))
  }

  function PutDebug(d: Debug, be: bool, rest: seq<Byte>): seq<Byte> {
    match d
    case NoDebug => rest
    case Lines(_, numline, lines, names) => PutWords(lines, LineWidth(numline), be, names + rest)
  }

  function PutSizes(p: Proto, f: Flags, rest: seq<Byte>): seq<Byte> {
    PutUleb(|p.kgc|, PutUleb(|p.knum|, PutUleb(|p.bc|, if f.strip then rest else PutDebugHead(p.debug, rest))))
  }

  function PutArrays(p: Proto, f: Flags, rest: seq<Byte>): seq<Byte> {
    PutWords(p.bc, 4, f.be,
      PutWords(p.uv, 2, f.be, PutConsts(p.kgc, PutNumbers(p.knum, PutDebug(p.debug, f.be, rest)))))
  }

  function PutBody(p: Proto, f: Flags, rest: seq<Byte>): seq<Byte>
    requires GoodBytes(p)
  {
    [p.flags, p.numparams, p.framesize, |p.uv|] + PutSizes(p, f, PutArrays(p, f, rest))
  }

  function PutProto(p: Proto, f: Flags, rest: seq<Byte>): seq<Byte>
    requires GoodBytes(p)
  {
    PutUleb(|PutBody(p, f, [])|, PutBody(p, f, rest))
  }

  function PutProtos(protos: seq<Proto>, f: Flags, rest: seq<Byte>): seq<Byte>
    requires forall p | p in protos :: GoodBytes(p)
  {
    if protos == [] then rest else PutProto(protos[0], f, PutProtos(protos[1..], f, rest))
  }

  // ----- what can be dumped -----

  predicate GoodBytes(p: Proto) {
    p.flags < 0x100 && p.numparams < 0x100 && p.framesize < 0x100 && |p.uv| < 0x100
  }

  predicate GoodKey(k: Key) {
    match k
    case Int(n) => n < WORD
    case Num(lo, hi) => lo < WORD && hi < WORD
    case Text(bytes) => 5 + |bytes| < WORD
    case _ => true
  }

  predicate GoodKeys(keys: seq<Key>) {
    forall i | 0 <= i < |keys| :: GoodKey(keys[i])
  }

  predicate GoodPairs(pairs: seq<(Key, Key)>) {
    forall i | 0 <= i < |pairs| :: GoodKey(pairs[i].0) && GoodKey(pairs[i].1)
  }

  predicate GoodConst(c: Const) {
    match c
    case Child(_) => true
    case Table(entries, pairs) =>
      |entries| < WORD && |pairs| < WORD && GoodKeys(entries) && GoodPairs(pairs)
    case I64(lo, hi) => lo < WORD && hi < WORD
    case U64(lo, hi) => lo < WORD && hi < WORD
    case Complex(rlo, rhi, ilo, ihi) => rlo < WORD && rhi < WORD && ilo < WORD && ihi < WORD
    case Str(bytes) => 5 + |bytes| < WORD
  }

  predicate GoodNumber(n: Number) {
    match n
    case Integer(n) => n < WORD
    case Double(lo, hi) => lo < WORD && hi < WORD
  }

  predicate GoodConsts(consts: seq<Const>) {
    forall i | 0 <= i < |consts| :: GoodConst(consts[i])
  }

  predicate GoodNumbers(numbers: seq<Number>) {
    forall i | 0 <= i < |numbers| :: GoodNumber(numbers[i])
  }

  predicate GoodWords(words: seq<nat>, width: nat) {
    forall i | 0 <= i < |words| :: words[i] < Power(width)
  }

  predicate GoodDebug(d: Debug, size: nat) {
    match d
    case NoDebug => true
    case Lines(firstline, numline, lines, names) =>
      && firstline < WORD && numline < WORD && |lines| == size && GoodWords(lines, LineWidth(numline))
      && 0 < DebugSize(d) < WORD
  }

  predicate GoodProto(p: Proto, f: Flags) {
    && GoodBytes(p) && |p.bc| < WORD && |p.kgc| < WORD && |p.knum| < WORD
    && GoodWords(p.bc, 4) && GoodWords(p.uv, 2)
    && GoodConsts(p.kgc) && GoodNumbers(p.knum)
    && GoodDebug(p.debug, |p.bc|) && (f.strip ==> p.debug.NoDebug?)
    && |PutBody(p, f, [])| <= MAX_MEM
  }

  const MAX_MEM := 0x7fff_ff00

  // ----- the tree -----

  /** The children among the constants from i on, the last one first. */
  function Kids(p: Proto, i: nat): seq<Proto>
    requires i <= |p.kgc|
    decreases |p.kgc| - i
  {
    if i == |p.kgc| then []
    else Kids(p, i + 1) + (if p.kgc[i].Child? then [p.kgc[i].proto] else [])
  }

  /** The order of the prototypes in a dump. */
  function Order(p: Proto): (order: seq<Proto>)
    ensures |order| > 0
    decreases p, |p.kgc| + 1
  {
    OrderKids(p, 0) + [p]
  }

  function OrderKids(p: Proto, i: nat): seq<Proto>
    requires i <= |p.kgc|
    decreases p, |p.kgc| - i
  {
    if i == |p.kgc| then []
    else OrderKids(p, i + 1) + (if p.kgc[i].Child? then Order(p.kgc[i].proto) else [])
  }

  /** The header behind its first byte */
  function PutHeader(f: Flags, name: seq<Byte>, rest: seq<Byte>): seq<Byte> {
    [0x4c, 0x4a, 1] + PutUleb(FlagBits(f), if f.strip then rest else PutUleb(|name|, name + rest))
  }

  /** The dump behind its first byte */
  function Dump(f: Flags, name: seq<Byte>, main: Proto): seq<Byte>
    requires forall p | p in Order(main) :: GoodBytes(p)
  {
    PutHeader(f, name, PutProtos(Order(main), f, [0]))
  }

  ghost predicate GoodDump(f: Flags, name: seq<Byte>, main: Proto) {
    |name| < MAX_MEM && forall p | p in Order(main) :: GoodProto(p, f) && GoodBytes(p)
  }

  // ----- the stack -----

  /** The children of p are on top of the stack. */
  predicate HasKids(stack: seq<Proto>, p: Proto) {
    var kids := Kids(p, 0);
    |kids| <= |stack| && stack[|stack| - |kids|..] == kids
  }

  /** The stack after the prototypes have been read; each takes its children from it. */
  function Built(stack: seq<Proto>, order: seq<Proto>): seq<Proto>
    decreases |order|
  {
    if order == [] then stack
    else if !HasKids(stack, order[0]) then []
    else Built(stack[..|stack| - |Kids(order[0], 0)|] + [order[0]], order[1..])
  }

  /** The order builds the tree: reading the prototypes of a tree leaves one more on the stack, its root. */
  lemma {:induction false} OrderBuilds(stack: seq<Proto>, p: Proto, rest: seq<Proto>)
    ensures Built(stack, Order(p) + rest) == Built(stack + [p], rest)
    decreases p, |p.kgc| + 1
  {
    var kids := Kids(p, 0);
    assert Order(p) + rest == OrderKids(p, 0) + ([p] + rest);
    KidsBuild(stack, p, 0, [p] + rest);
    assert (stack + kids)[|stack|..] == kids && (stack + kids)[..|stack|] == stack;
    assert HasKids(stack + kids, p) && ([p] + rest)[1..] == rest;
  }

  lemma {:induction false} KidsBuild(stack: seq<Proto>, p: Proto, i: nat, rest: seq<Proto>)
    requires i <= |p.kgc|
    ensures Built(stack, OrderKids(p, i) + rest) == Built(stack + Kids(p, i), rest)
    decreases p, |p.kgc| - i
  {
    if i == |p.kgc| {
      assert stack + [] == stack && [] + rest == rest;
    } else {
      var more := if p.kgc[i].Child? then Order(p.kgc[i].proto) else [];
      assert OrderKids(p, i) + rest == OrderKids(p, i + 1) + (more + rest);
      KidsBuild(stack, p, i + 1, more + rest);
      if p.kgc[i].Child? {
        OrderBuilds(stack + Kids(p, i + 1), p.kgc[i].proto, rest);
        assert stack + Kids(p, i + 1) + [p.kgc[i].proto] == stack + Kids(p, i);
      } else {
        assert more + rest == rest && stack + Kids(p, i + 1) == stack + Kids(p, i);
      }
    }
  }

  // ----- what follows does not matter -----

  lemma {:induction false} UlebSplit(n: nat, a: seq<Byte>, b: seq<Byte>)
    ensures PutUleb(n, a + b) == PutUleb(n, a) + b
  {
    if n < 0x80 {
      assert [n] + (a + b) == [n] + a + b;
    } else {
      UlebSplit(n / 0x80, a, b);
    }
  }

  lemma {:induction false} WordsSplit(words: seq<nat>, width: nat, be: bool, a: seq<Byte>, b: seq<Byte>)
    ensures PutWords(words, width, be, a + b) == PutWords(words, width, be, a) + b
  {
    if words == [] {
    } else {
      WordsSplit(words[1..], width, be, a, b);
    }
  }

  lemma KeySplit(k: Key, a: seq<Byte>, b: seq<Byte>)
    ensures PutKey(k, a + b) == PutKey(k, a) + b
  {
    hide PutUleb;
    match k
    case Nil => UlebSplit(0, a, b);
    case False => UlebSplit(1, a, b);
    case True => UlebSplit(2, a, b);
    case Int(n) =>
      UlebSplit(n, a, b);
      UlebSplit(3, PutUleb(n, a), b);
    case Num(lo, hi) => TwoSplit(4, lo, hi, a, b);
    case Text(bytes) => TextSplit(5, bytes, a, b);
  }

  lemma TwoSplit(tag: nat, lo: nat, hi: nat, a: seq<Byte>, b: seq<Byte>)
    ensures PutUleb(tag, PutUleb(lo, PutUleb(hi, a + b))) == PutUleb(tag, PutUleb(lo, PutUleb(hi, a))) + b
  {
    hide PutUleb;
    UlebSplit(hi, a, b);
    UlebSplit(lo, PutUleb(hi, a), b);
    UlebSplit(tag, PutUleb(lo, PutUleb(hi, a)), b);
  }

  lemma TextSplit(tag: nat, bytes: seq<Byte>, a: seq<Byte>, b: seq<Byte>)
    ensures PutUleb(tag + |bytes|, bytes + (a + b)) == PutUleb(tag + |bytes|, bytes + a) + b
  {
    hide PutUleb;
    assert bytes + (a + b) == bytes + a + b;
    UlebSplit(tag + |bytes|, bytes + a, b);
  }

  lemma {:induction false} KeysSplit(keys: seq<Key>, a: seq<Byte>, b: seq<Byte>)
    ensures PutKeys(keys, a + b) == PutKeys(keys, a) + b
  {
    hide PutKey;
    if keys == [] {
    } else {
      KeysSplit(keys[1..], a, b);
      KeySplit(keys[0], PutKeys(keys[1..], a), b);
    }
  }

  lemma {:induction false} PairsSplit(pairs: seq<(Key, Key)>, a: seq<Byte>, b: seq<Byte>)
    ensures PutPairs(pairs, a + b) == PutPairs(pairs, a) + b
  {
    hide PutKey;
    if pairs == [] {
    } else {
      PairsSplit(pairs[1..], a, b);
      KeySplit(pairs[0].1, PutPairs(pairs[1..], a), b);
      KeySplit(pairs[0].0, PutKey(pairs[0].1, PutPairs(pairs[1..], a)), b);
    }
  }

  lemma ConstSplit(c: Const, a: seq<Byte>, b: seq<Byte>)
    ensures PutConst(c, a + b) == PutConst(c, a) + b
  {
    hide PutUleb, PutKeys, PutPairs;
    match c
    case Child(_) => UlebSplit(0, a, b);
    case Table(entries, pairs) =>
      PairsSplit(pairs, a, b);
      KeysSplit(entries, PutPairs(pairs, a), b);
      TwoSplit(1, |entries|, |pairs|, PutKeys(entries, PutPairs(pairs, a)), b);
    case I64(lo, hi) => TwoSplit(2, lo, hi, a, b);
    case U64(lo, hi) => TwoSplit(3, lo, hi, a, b);
    case Complex(rlo, rhi, ilo, ihi) =>
      TwoSplit(rhi, ilo, ihi, a, b);
      var end := PutUleb(rhi, PutUleb(ilo, PutUleb(ihi, a)));
      UlebSplit(rlo, end, b);
      UlebSplit(4, PutUleb(rlo, end), b);
    case Str(bytes) => TextSplit(5, bytes, a, b);
  }

  lemma {:induction false} ConstsSplit(consts: seq<Const>, a: seq<Byte>, b: seq<Byte>)
    ensures PutConsts(consts, a + b) == PutConsts(consts, a) + b
  {
    hide PutConst;
    if consts == [] {
    } else {
      ConstsSplit(consts[1..], a, b);
      ConstSplit(consts[0], PutConsts(consts[1..], a), b);
    }
  }

  lemma NumberSplit(n: Number, a: seq<Byte>, b: seq<Byte>)
    ensures PutNumber(n, a + b) == PutNumber(n, a) + b
  {
    hide PutUleb;
    match n
    case Integer(n) => UlebSplit(2 * n, a, b);
    case Double(lo, hi) =>
      UlebSplit(hi, a, b);
      UlebSplit(2 * lo + 1, PutUleb(hi, a), b);
  }

  lemma {:induction false} NumbersSplit(numbers: seq<Number>, a: seq<Byte>, b: seq<Byte>)
    ensures PutNumbers(numbers, a + b) == PutNumbers(numbers, a) + b
  {
    hide PutNumber;
    if numbers == [] {
    } else {
      NumbersSplit(numbers[1..], a, b);
      NumberSplit(numbers[0], PutNumbers(numbers[1..], a), b);
    }
  }

  lemma DebugSplit(d: Debug, be: bool, a: seq<Byte>, b: seq<Byte>)
    ensures PutDebug(d, be, a + b) == PutDebug(d, be, a) + b
    ensures PutDebugHead(d, a + b) == PutDebugHead(d, a) + b
  {
    hide PutUleb, PutWords;
    match d
    case NoDebug => UlebSplit(0, a, b);
    case Lines(firstline, numline, lines, names) =>
      assert names + (a + b) == names + a + b;
      WordsSplit(lines, LineWidth(numline), be, names + a, b);
      TwoSplit(DebugSize(d), firstline, numline, a, b);
  }

  lemma SizesSplit(p: Proto, f: Flags, a: seq<Byte>, b: seq<Byte>)
    ensures PutSizes(p, f, a + b) == PutSizes(p, f, a) + b
  {
    hide PutUleb, PutDebugHead;
    DebugSplit(p.debug, f.be, a, b);
    TwoSplit(|p.kgc|, |p.knum|, |p.bc|, if f.strip then a else PutDebugHead(p.debug, a), b);
  }

  lemma ArraysSplit(p: Proto, f: Flags, a: seq<Byte>, b: seq<Byte>)
    ensures PutArrays(p, f, a + b) == PutArrays(p, f, a) + b
  {
    hide PutWords, PutConsts, PutNumbers, PutDebug;
    DebugSplit(p.debug, f.be, a, b);
    var debug := PutDebug(p.debug, f.be, a);
    NumbersSplit(p.knum, debug, b);
    var numbers := PutNumbers(p.knum, debug);
    ConstsSplit(p.kgc, numbers, b);
    var consts := PutConsts(p.kgc, numbers);
    WordsSplit(p.uv, 2, f.be, consts, b);
    WordsSplit(p.bc, 4, f.be, PutWords(p.uv, 2, f.be, consts), b);
  }

  /** The length in front of a prototype is the length of what follows, and that is at least seven bytes. */
  lemma BodySplit(p: Proto, f: Flags, rest: seq<Byte>)
    requires GoodBytes(p)
    ensures PutBody(p, f, rest) == PutBody(p, f, []) + rest && |PutBody(p, f, [])| >= 7
  {
    hide PutSizes, PutArrays;
    assert [] + rest == rest;
    ArraysSplit(p, f, [], rest);
    SizesSplit(p, f, PutArrays(p, f, []), rest);
    SizesAtLeast(p, f, PutArrays(p, f, []));
  }

  lemma SizesAtLeast(p: Proto, f: Flags, rest: seq<Byte>)
    ensures |PutSizes(p, f, rest)| >= |rest| + 3
  {
    hide PutUleb;
  }
}
