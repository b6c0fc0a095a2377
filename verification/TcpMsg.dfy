/** Messages on a byte stream: a length of 1, 2 or 4 bytes, then the data. */
module TcpMsg {
  import opened ByteOrder
  import opened Common

  datatype Written = Frame(bytes: seq<Byte>) | WriteTooLong | WriteTooShort | Panics

  /** rest is what stays in the stream. */
  datatype Parsed = Message(data: seq<Byte>, rest: seq<Byte>) | TooLong | TooShort | Ended

  /** `MsgParser` */
  datatype Format = Format(lenMsgLen: nat, minMsgLen: nat, maxMsgLen: nat, littleEndian: bool)

  /** The lengths that lenMsgLen bytes can hold. */
  function Room(lenMsgLen: nat): nat {
    if lenMsgLen == 1 then 0x100 else if lenMsgLen == 2 then 0x1_0000 else WRAP
  }

  ghost predicate ValidFormat(f: Format) {
    && (f.lenMsgLen == 1 || f.lenMsgLen == 2 || f.lenMsgLen == 4)
    && 1 <= f.minMsgLen < Room(f.lenMsgLen) && 1 <= f.maxMsgLen < Room(f.lenMsgLen)
  }

  function Min(a: int, b: int): int {
    if a <= b then a else b
  }

  // ----- numbers -----

  function Two(a: nat, b: nat): nat {
    a + 0x100 * b
  }

  function Four(a: nat, b: nat, c: nat, d: nat): nat {
    a + 0x100 * b + 0x1_0000 * c + 0x100_0000 * d
  }

  function Header(f: Format, n: nat): (h: seq<Byte>)
    ensures |h| == f.lenMsgLen
  {
    if f.littleEndian then Little(n, f.lenMsgLen) else Reversed(Little(n, f.lenMsgLen))
  }

  function HeaderValue(f: Format, h: seq<Byte>): nat {
    if f.littleEndian then FromLittle(h) else FromLittle(Reversed(h))
  }

  lemma RoomIsPower(f: Format)
    requires ValidFormat(f)
    ensures Power(f.lenMsgLen) == Room(f.lenMsgLen)
  {
    assert Power(1) == 0x100 && Power(2) == 0x100 * Power(1) && Power(3) == 0x100 * Power(2);
    assert Power(4) == 0x100 * Power(3);
  }

  lemma HeaderRoundTrip(f: Format, n: nat)
    requires ValidFormat(f) && n < Room(f.lenMsgLen)
    ensures HeaderValue(f, Header(f, n)) == n
  {
    RoomIsPower(f);
    LittleRoundTrip(n, f.lenMsgLen);
    ReversedTwice(Little(n, f.lenMsgLen));
  }

  lemma HeaderValueRoundTrip(f: Format, h: seq<Byte>)
    requires ValidFormat(f) && |h| == f.lenMsgLen
    ensures HeaderValue(f, h) < Room(f.lenMsgLen) && Header(f, HeaderValue(f, h)) == h
  {
    RoomIsPower(f);
    FromLittleRoundTrip(h);
    FromLittleRoundTrip(Reversed(h));
    ReversedTwice(h);
  }

  // ----- frames -----

  function Framed(f: Format, data: seq<Byte>): seq<Byte> {
    Header(f, |data|) + data
  }

  predicate LengthFits(f: Format, n: nat) {
    f.minMsgLen <= n <= f.maxMsgLen
  }

  /** What reading the stream s gives. */
  function Parse(f: Format, s: seq<Byte>): Parsed {
    if |s| < f.lenMsgLen then Ended
    else
      var n := HeaderValue(f, s[..f.lenMsgLen]);
      if n > f.maxMsgLen then TooLong
      else if n < f.minMsgLen then TooShort
      else if |s| - f.lenMsgLen < n then Ended
      else Message(s[f.lenMsgLen..f.lenMsgLen + n], s[f.lenMsgLen + n..])
  }

  /** A stream yields a message exactly when it starts with the frame of one of legal length. */
  lemma ParseFramed(f: Format, s: seq<Byte>, data: seq<Byte>, rest: seq<Byte>)
    requires ValidFormat(f)
    ensures Parse(f, s) == Message(data, rest) <==> LengthFits(f, |data|) && s == Framed(f, data) + rest
  {
    hide Parse, Framed, LengthFits;
    if LengthFits(f, |data|) && s == Framed(f, data) + rest {
      ParseOf(f, data, rest);
    }
    if Parse(f, s) == Message(data, rest) {
      ParseOnly(f, s, data, rest);
    }
  }

  lemma ParseOf(f: Format, data: seq<Byte>, rest: seq<Byte>)
    requires ValidFormat(f) && LengthFits(f, |data|)
    ensures Parse(f, Framed(f, data) + rest) == Message(data, rest)
  {
    hide Header, HeaderValue;
    var k, s := f.lenMsgLen, Framed(f, data) + rest;
    HeaderRoundTrip(f, |data|);
    assert s[..k] == Header(f, |data|);
    assert s[k..k + |data|] == data && s[k + |data|..] == rest;
  }

  lemma ParseOnly(f: Format, s: seq<Byte>, data: seq<Byte>, rest: seq<Byte>)
    requires ValidFormat(f) && Parse(f, s) == Message(data, rest)
    ensures LengthFits(f, |data|) && s == Framed(f, data) + rest
  {
    hide Header, HeaderValue;
    var k := f.lenMsgLen;
    HeaderValueRoundTrip(f, s[..k]);
    assert s == s[..k] + s[k..k + |data|] + s[k + |data|..];
  }

  /** The stream starts with the header for length n. */
  predicate Starts(f: Format, s: seq<Byte>, n: nat)
    requires ValidFormat(f)
  {
    n < Room(f.lenMsgLen) && Header(f, n) <= s
  }

  /** The errors: the header stands for a length above the limits, below them, or for more than there is. */
  lemma ParseErrors(f: Format, s: seq<Byte>)
    requires ValidFormat(f)
    ensures Parse(f, s) == TooLong <==> exists n: nat :: Starts(f, s, n) && n > f.maxMsgLen
    ensures Parse(f, s) == TooShort <==> exists n: nat :: Starts(f, s, n) && n <= f.maxMsgLen && n < f.minMsgLen
    ensures Parse(f, s) == Ended <==>
      |s| < f.lenMsgLen || exists n: nat :: Starts(f, s, n) && LengthFits(f, n) && |s| < f.lenMsgLen + n
  {
    hide Header, HeaderValue;
    if |s| >= f.lenMsgLen {
      var h := s[..f.lenMsgLen];
      HeaderValueRoundTrip(f, h);
      assert Starts(f, s, HeaderValue(f, h));
      forall n: nat | Starts(f, s, n)
        ensures n == HeaderValue(f, h)
      {
        HeaderRoundTrip(f, n);
        assert Header(f, n) == h;
      }
    }
  }

  /** All messages a reader gets from the stream s before an error or the end. */
  function Messages(f: Format, s: seq<Byte>): seq<seq<Byte>>
    requires f.lenMsgLen > 0
    decreases |s|
  {
    match Parse(f, s)
    case Message(data, rest) => [data] + Messages(f, rest)
    case _ => []
  }

  ghost predicate AllFit(f: Format, messages: seq<seq<Byte>>) {
    forall m | m in messages :: LengthFits(f, |m|)
  }

  function Concat(s: seq<seq<Byte>>): seq<Byte> {
    if s == [] then [] else s[0] + Concat(s[1..])
  }

  function Frames(f: Format, messages: seq<seq<Byte>>): (frames: seq<seq<Byte>>)
    ensures |frames| == |messages|
  {
    if messages == [] then [] else [Framed(f, messages[0])] + Frames(f, messages[1..])
  }

  /** Whatever part of the stream of frames arrives, the reader gets the first messages, in order, and no others. */
  lemma {:induction false} MessagesPrefix(f: Format, messages: seq<seq<Byte>>, s: seq<Byte>)
    requires ValidFormat(f) && AllFit(f, messages) && s <= Concat(Frames(f, messages))
    ensures Messages(f, s) <= messages
    decreases |messages|
  {
    hide Parse, Framed, LengthFits;
    if messages == [] {
      assert s == [];
      NoMessage(f);
    } else {
      var first, tail := Framed(f, messages[0]), Concat(Frames(f, messages[1..]));
      FirstFrame(f, messages);
      if |s| >= |first| {
        var rest := s[|first|..];
        assert s == first + rest && rest <= tail;
        ParseFramed(f, s, messages[0], rest);
        MessagesPrefix(f, messages[1..], rest);
        assert messages == [messages[0]] + messages[1..];
      } else {
        PartOfFrame(f, messages[0], s, first + tail);
      }
    }
  }

  lemma NoMessage(f: Format)
    requires ValidFormat(f)
    ensures Parse(f, []) == Ended
  {
  }

  lemma FirstFrame(f: Format, messages: seq<seq<Byte>>)
    requires AllFit(f, messages) && messages != []
    ensures LengthFits(f, |messages[0]|) && AllFit(f, messages[1..])
    ensures Concat(Frames(f, messages)) == Framed(f, messages[0]) + Concat(Frames(f, messages[1..]))
  {
    assert messages[0] in messages;
    assert forall m | m in messages[1..] :: m in messages;
    assert Frames(f, messages)[1..] == Frames(f, messages[1..]);
  }

  /** Part of a frame is no message. */
  lemma PartOfFrame(f: Format, data: seq<Byte>, s: seq<Byte>, all: seq<Byte>)
    requires ValidFormat(f) && LengthFits(f, |data|) && Framed(f, data) <= all && s <= all && |s| < |Framed(f, data)|
    ensures Parse(f, s) == Ended
  {
    if |s| >= f.lenMsgLen {
      assert s[..f.lenMsgLen] == Framed(f, data)[..f.lenMsgLen] == Header(f, |data|);
      HeaderRoundTrip(f, |data|);
    }
  }

  lemma {:induction false} MessagesAll(f: Format, messages: seq<seq<Byte>>)
    requires ValidFormat(f) && AllFit(f, messages)
    ensures Messages(f, Concat(Frames(f, messages))) == messages
  {
    hide Parse, Framed, LengthFits;
    if messages == [] {
      NoMessage(f);
    } else {
      FirstFrame(f, messages);
      ParseFramed(f, Concat(Frames(f, messages)), messages[0], Concat(Frames(f, messages[1..])));
      MessagesAll(f, messages[1..]);
      assert messages == [messages[0]] + messages[1..];
    }
  }

  // ----- the parser -----

  /** What `Write` makes of its arguments: lengths are added in 32 bits, and what does not fit is cut off if it is in
      the last argument, and a panic otherwise. */
  function WriteSpec(f: Format, args: seq<seq<Byte>>): Written {
    var data := Concat(args);
    var n := |data| % WRAP;
    if n > f.maxMsgLen then WriteTooLong
    else if n < f.minMsgLen then WriteTooShort
    else if f.lenMsgLen + n >= WRAP then Panics
    else if args != [] && |Concat(args[..|args| - 1])| > n then Panics
    else Frame(Header(f, n) + data[..n])
  }

  /** The frame of the whole message is written if and only if the length is legal, without wrapping around in 32 bits,
      alone or with the header. */
  lemma WriteWhole(f: Format, args: seq<seq<Byte>>)
    requires ValidFormat(f)
    ensures var data := Concat(args);
      WriteSpec(f, args) == Frame(Framed(f, data)) <==> LengthFits(f, |data|) && f.lenMsgLen + |data| < WRAP
  {
    hide Concat, Header;
    var data := Concat(args);
    if |data| < WRAP {
      assert |data| % WRAP == |data| && data[..|data|] == data;
      if args != [] {
        ConcatFront(args, |args| - 1);
      }
    } else {
      assert |Framed(f, data)| > f.lenMsgLen + |data| % WRAP;
    }
  }

  /** The errors, for messages whose length does not wrap around. */
  lemma WriteErrors(f: Format, args: seq<seq<Byte>>)
    requires ValidFormat(f) && |Concat(args)| < WRAP
    ensures var n := |Concat(args)|;
      && (WriteSpec(f, args) == WriteTooLong <==> n > f.maxMsgLen)
      && (WriteSpec(f, args) == WriteTooShort <==> n <= f.maxMsgLen && n < f.minMsgLen)
      && (WriteSpec(f, args) == Panics <==> LengthFits(f, n) && f.lenMsgLen + n >= WRAP)
  {
    hide Concat, Header;
    if args != [] {
      ConcatFront(args, |args| - 1);
    }
  }

  lemma {:induction false} ConcatFront(s: seq<seq<Byte>>, k: nat)
    requires k <= |s|
    ensures Concat(s) == Concat(s[..k]) + Concat(s[k..])
  {
    if k == 0 {
      assert s[k..] == s;
    } else {
      ConcatFront(s[1..], k - 1);
      assert s[..k][1..] == s[1..][..k - 1] && s[1..][k - 1..] == s[k..];
      assert s[..k][0] == s[0];
    }
  }

  lemma {:induction false} ConcatLast(s: seq<seq<Byte>>, k: nat)
    requires k < |s|
    ensures Concat(s[..k + 1]) == Concat(s[..k]) + s[k]
  {
    ConcatFront(s[..k + 1], k);
    assert s[..k + 1][..k] == s[..k] && s[..k + 1][k..] == [s[k]];
    assert Concat([s[k]]) == s[k] + Concat([s[k]][1..]);
  }

  /** A message that is too long for 32 bits is cut off silently. */
  lemma WriteTruncates(data: seq<Byte>)
    requires |data| == WRAP + 5
    ensures WriteSpec(Format(2, 1, 4096, false), [data]) == Frame([0, 5] + data[..5])
  {
    assert Concat([data]) == data + Concat([data][1..]) && Concat([data]) == data;
    assert [data][..0] == [];
    assert Little(5, 2) == [5] + Little(0, 1) && Little(0, 1) == [0] + Little(0, 0);
  }

  class MsgParser {
    var lenMsgLen: nat
    var minMsgLen: nat
    var maxMsgLen: nat
    var littleEndian: bool

    ghost function Now(): Format
      reads this
    {
      Format(lenMsgLen, minMsgLen, maxMsgLen, littleEndian)
    }

    constructor ()
      ensures ValidFormat(Now()) && Now() == Format(2, 1, 4096, false)
    {
      lenMsgLen, minMsgLen, maxMsgLen, littleEndian := 2, 1, 4096, false;
    }

    /** A width other than 1, 2 and 4, and a limit of 0, is ignored; limits are cut to what the width can hold. */
    method SetMsgLen(width: int, least: nat, most: nat)
      requires ValidFormat(Now()) && least < WRAP && most < WRAP
      modifies this
      ensures ValidFormat(Now()) && littleEndian == old(littleEndian)
      ensures lenMsgLen == if width == 1 || width == 2 || width == 4 then width else old(lenMsgLen)
      ensures minMsgLen == Min(if least == 0 then old(minMsgLen) else least, Room(lenMsgLen) - 1)
      ensures maxMsgLen == Min(if most == 0 then old(maxMsgLen) else most, Room(lenMsgLen) - 1)
    {
      if width == 1 || width == 2 || width == 4 {
        lenMsgLen := width;
      }
      if least != 0 {
        minMsgLen := least;
      }
      if most != 0 {
        maxMsgLen := most;
      }
      CutLimits();
    }

    /** The end of `SetMsgLen` */
    method CutLimits()
      requires (lenMsgLen == 1 || lenMsgLen == 2 || lenMsgLen == 4) && minMsgLen > 0 && maxMsgLen > 0
      modifies this
      ensures lenMsgLen == old(lenMsgLen) && littleEndian == old(littleEndian) && ValidFormat(Now())
      ensures minMsgLen == Min(old(minMsgLen), Room(lenMsgLen) - 1)
      ensures maxMsgLen == Min(old(maxMsgLen), Room(lenMsgLen) - 1)
    {
      var max := match lenMsgLen case 1 => 0xff case 2 => 0xffff case _ => 0xffff_ffff;
      if minMsgLen > max {
        minMsgLen := max;
      }
      if maxMsgLen > max {
        maxMsgLen := max;
      }
    }

    method SetByteOrder(little: bool)
      requires ValidFormat(Now())
      modifies this
      ensures ValidFormat(Now()) && Now() == old(Now()).(littleEndian := little)
    {
      littleEndian := little;
    }

    method Read(s: seq<Byte>) returns (r: Parsed)
      requires ValidFormat(Now())
      ensures r == Parse(Now(), s)
    {
      if |s| < lenMsgLen {
        return Ended;
      }
      var b := s[..lenMsgLen];
      var msgLen: nat;
      match lenMsgLen {
        case 1 => msgLen := b[0];
        case 2 => msgLen := if littleEndian then Two(b[0], b[1]) else Two(b[1], b[0]);
        case _ => msgLen := if littleEndian then Four(b[0], b[1], b[2], b[3]) else Four(b[3], b[2], b[1], b[0]);
      }
      ValueOfBytes(Now(), b);
      if msgLen > maxMsgLen {
        return TooLong;
      } else if msgLen < minMsgLen {
        return TooShort;
      }
      if |s| - lenMsgLen < msgLen {
        return Ended;
      }
      return Message(s[lenMsgLen..lenMsgLen + msgLen], s[lenMsgLen + msgLen..]);
    }

    method Write(args: seq<seq<Byte>>) returns (r: Written)
      requires ValidFormat(Now())
      ensures r == WriteSpec(Now(), args)
    {
      hide Concat, Header, Framed;
      var msgLen := 0;
      ConcatNone(args);
      for i := 0 to |args|
        invariant msgLen == |Concat(args[..i])| % WRAP
      {
        ConcatLast(args, i);
        WrapAdd(|Concat(args[..i])|, |args[i]|);
        msgLen := (msgLen + |args[i]| % WRAP) % WRAP;
      }
      assert args[..|args|] == args;
      if msgLen > maxMsgLen {
        return WriteTooLong;
      } else if msgLen < minMsgLen {
        return WriteTooShort;
      }
      var size := (lenMsgLen + msgLen) % WRAP;
      var msg := new Byte[size](_ => 0);
      if size < lenMsgLen {
        return Panics;
      }
      PutLength(msg, msgLen);
      ghost var head := msg[..lenMsgLen];
      var ok := CopyAll(msg, lenMsgLen, args);
      if !ok {
        return Panics;
      }
      return Frame(msg[..]);
    }

    method PutLength(msg: array<Byte>, n: nat)
      requires ValidFormat(Now()) && n < Room(lenMsgLen) && msg.Length >= lenMsgLen
      modifies msg
      ensures msg[..lenMsgLen] == Header(Now(), n)
    {
      match lenMsgLen {
        case 1 => msg[0] := n % 0x100;
        case 2 =>
          if littleEndian {
            msg[0], msg[1] := n % 0x100, n / 0x100 % 0x100;
          } else {
            msg[0], msg[1] := n / 0x100 % 0x100, n % 0x100;
          }
        case _ =>
          if littleEndian {
            msg[0], msg[1], msg[2], msg[3] :=
              n % 0x100, n / 0x100 % 0x100, n / 0x1_0000 % 0x100, n / 0x100_0000 % 0x100;
          } else {
            msg[0], msg[1], msg[2], msg[3] :=
              n / 0x100_0000 % 0x100, n / 0x1_0000 % 0x100, n / 0x100 % 0x100, n % 0x100;
          }
      }
      BytesOfValue(Now(), n);
    }
  }

  /** `copy(msg[at:], b)` */
  method Copy(msg: array<Byte>, at: nat, b: seq<Byte>)
    requires at <= msg.Length
    modifies msg
    ensures var k := if |b| <= msg.Length - at then |b| else msg.Length - at;
      msg[..] == old(msg[..at]) + b[..k] + old(msg[at + k..])
  {
    var k := if |b| <= msg.Length - at then |b| else msg.Length - at;
    forall i | 0 <= i < k {
      msg[at + i] := b[i];
    }
  }

  /** Copies the arguments one behind the other from at on, up to the end of msg; they must not start behind it. */
  method CopyAll(msg: array<Byte>, at: nat, args: seq<seq<Byte>>) returns (ok: bool)
    requires at <= msg.Length <= at + |Concat(args)|
    modifies msg
    ensures ok <==> args == [] || at + |Concat(args[..|args| - 1])| <= msg.Length
    ensures ok ==> msg[..] == old(msg[..at]) + Concat(args)[..msg.Length - at]
  {
    hide Concat, Holds;
    var l := at;
    ghost var head := msg[..at];
    ConcatNone(args);
    HoldsNone(msg[..], head);
    for i := 0 to |args|
      invariant l == at + |Concat(args[..i])|
      invariant i > 0 ==> at + |Concat(args[..i - 1])| <= msg.Length
      invariant Holds(msg[..], head, Concat(args[..i]))
    {
      ConcatLast(args, i);
      if l > msg.Length {
        TooEarly(args, i, msg.Length - at);
        return false;
      }
      CopyBehind(msg, l, head, Concat(args[..i]), args[i]);
      l := l + |args[i]|;
    }
    assert args[..|args|] == args;
    HoldsFull(msg[..], head, Concat(args));
    ok := true;
  }

  lemma ConcatNone(args: seq<seq<Byte>>)
    ensures Concat(args[..0]) == []
  {
  }

  /** The array holds head, and behind it as much of c as there is room for. */
  ghost predicate Holds(m: seq<Byte>, head: seq<Byte>, c: seq<Byte>) {
    |head| <= |m| && var n := Min(|head| + |c|, |m|); m[..n] == head + c[..n - |head|]
  }

  lemma HoldsNone(m: seq<Byte>, head: seq<Byte>)
    requires |head| <= |m| && m[..|head|] == head
    ensures Holds(m, head, [])
  {
  }

  lemma HoldsAll(m: seq<Byte>, head: seq<Byte>, c: seq<Byte>)
    requires Holds(m, head, c) && |head| + |c| <= |m|
    ensures m[..|head| + |c|] == head + c
  {
    assert c[..|c|] == c;
  }

  lemma HoldsFull(m: seq<Byte>, head: seq<Byte>, c: seq<Byte>)
    requires Holds(m, head, c) && |m| <= |head| + |c|
    ensures m == head + c[..|m| - |head|]
  {
    assert m[..|m|] == m;
  }

  method CopyBehind(msg: array<Byte>, l: nat, ghost head: seq<Byte>, ghost c: seq<Byte>, b: seq<Byte>)
    requires l == |head| + |c| <= msg.Length && Holds(msg[..], head, c)
    modifies msg
    ensures Holds(msg[..], head, c + b)
  {
    ghost var before := msg[..];
    HoldsAll(before, head, c);
    Copy(msg, l, b);
    CopyStep(before, head, c, b, msg[..]);
  }

  lemma CopyStep(m: seq<Byte>, head: seq<Byte>, c: seq<Byte>, b: seq<Byte>, t: seq<Byte>)
    requires |head| + |c| <= |m| && m[..|head| + |c|] == head + c
    requires var l := |head| + |c|; var k := Min(|b|, |m| - l); t == m[..l] + b[..k] + m[l + k..]
    ensures var n := Min(|head| + |c| + |b|, |m|); t[..n] == head + (c + b)[..n - |head|]
  {
    var l := |head| + |c|;
    var k := Min(|b|, |m| - l);
    assert t[..l + k] == m[..l] + b[..k];
    assert (c + b)[..|c| + k] == c + b[..k];
  }

  lemma ValueOfBytes(f: Format, b: seq<Byte>)
    requires ValidFormat(f) && |b| == f.lenMsgLen
    ensures f.lenMsgLen == 1 ==> HeaderValue(f, b) == b[0]
    ensures f.lenMsgLen == 2 ==>
      HeaderValue(f, b) == if f.littleEndian then Two(b[0], b[1]) else Two(b[1], b[0])
    ensures f.lenMsgLen == 4 ==>
      HeaderValue(f, b) == if f.littleEndian then Four(b[0], b[1], b[2], b[3]) else Four(b[3], b[2], b[1], b[0])
  {
    LittleValue(b);
    LittleValue(Reversed(b));
  }

  lemma LittleValue(s: seq<Byte>)
    ensures |s| == 1 ==> FromLittle(s) == s[0]
    ensures |s| == 2 ==> FromLittle(s) == Two(s[0], s[1])
    ensures |s| == 4 ==> FromLittle(s) == Four(s[0], s[1], s[2], s[3])
  {
    if |s| > 1 {
      assert FromLittle(s) == s[0] + 0x100 * FromLittle(s[1..]);
      assert FromLittle(s[1..]) == s[1] + 0x100 * FromLittle(s[1..][1..]);
      assert s[1..][1..] == s[2..];
      if |s| == 4 {
        LittleValue(s[2..]);
      }
    }
  }

  lemma BytesOfValue(f: Format, n: nat)
    requires ValidFormat(f) && n < Room(f.lenMsgLen)
    ensures f.lenMsgLen == 1 ==> Header(f, n) == [n % 0x100]
    ensures f.lenMsgLen == 2 ==>
      Header(f, n) == if f.littleEndian then [n % 0x100, n / 0x100 % 0x100] else [n / 0x100 % 0x100, n % 0x100]
    ensures f.lenMsgLen == 4 ==>
      var b := [n % 0x100, n / 0x100 % 0x100, n / 0x1_0000 % 0x100, n / 0x100_0000 % 0x100];
      Header(f, n) == if f.littleEndian then b else [b[3], b[2], b[1], b[0]]
  {
    LittleBytes(n);
  }

  lemma LittleBytes(n: nat)
    ensures Little(n, 1) == [n % 0x100]
    ensures Little(n, 2) == [n % 0x100, n / 0x100 % 0x100]
    ensures Little(n, 4) == [n % 0x100, n / 0x100 % 0x100, n / 0x1_0000 % 0x100, n / 0x100_0000 % 0x100]
  {
    var a := n / 0x100;
    var b := a / 0x100;
    var c := b / 0x100;
    assert b == n / 0x1_0000 && c == n / 0x100_0000;
    assert Little(n, 4) == [n % 0x100] + Little(a, 3) && Little(a, 3) == [a % 0x100] + Little(b, 2);
    assert Little(b, 2) == [b % 0x100] + Little(c, 1) && Little(c, 1) == [c % 0x100] + Little(c / 0x100, 0);
    assert Little(n, 2) == [n % 0x100] + Little(a, 1) && Little(a, 1) == [a % 0x100] + Little(b, 0);
    assert Little(n, 1) == [n % 0x100] + Little(a, 0);
  }

  /** When an argument starts behind the end, so does the last one. */
  lemma TooEarly(args: seq<seq<Byte>>, i: nat, n: int)
    requires i < |args| && |Concat(args[..i])| > n
    ensures |Concat(args[..|args| - 1])| > n
  {
    ConcatFront(args[..|args| - 1], i);
    assert args[..|args| - 1][..i] == args[..i];
  }
}
