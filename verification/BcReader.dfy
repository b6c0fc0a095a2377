/** `lj_bcread`: the reader of bytecode dumps, which gets its input in pieces. */
module BcReader {
  import opened Common
  import opened BcDump
  import opened ByteOrder

  /** Undefined: the source would read behind its buffer, or shift too far; only a malformed dump makes it do so. */
  datatype Status = Fine | Bad | Undefined

  datatype Loaded = Loaded(proto: Proto, chunkname: seq<Byte>) | BadFormat | BadDump | Unspecified

  /** The bytes the reader function will yet deliver; an empty piece is the end. */
  function Flat(chunks: seq<seq<Byte>>): seq<Byte> {
    if chunks == [] || chunks[0] == [] then [] else chunks[0] + Flat(chunks[1..])
  }

  lemma FlatStart(chunks: seq<seq<Byte>>)
    ensures Flat(chunks) == if chunks == [] || chunks[0] == [] then [] else chunks[0] + Flat(chunks[1..])
  {
  }

  lemma Joined(a: seq<Byte>, b: seq<Byte>, c: seq<Byte>)
    ensures a + b + c == a + (b + c)
  {
  }

  function Max(a: nat, b: nat): nat {
    if a < b then b else a
  }

  /** What is left to read lies at pos, n bytes, either in the own buffer sb, which holds sbN bytes, or in ext, the
      piece that came last. chunks is what the reader function will return, eof that it has returned the end. */
  class LexState {
    var sb: array<Byte>
    var sbN: nat
    var ext: seq<Byte>
    var inSb: bool
    var pos: nat
    var n: nat
    var eof: bool
    var chunks: seq<seq<Byte>>
    var stack: seq<Proto>
    var flags: Flags

    ghost predicate Valid()
      reads this`sb, this`sbN, this`ext, this`inSb, this`pos, this`n
    {
      && sb.Length > 0
      && (if inSb then pos + n <= sb.Length && (n > 0 ==> pos + n == sbN) else pos + n == |ext|)
      && (sbN > 0 ==> inSb && pos + n == sbN)
    }

    ghost function Buffered(): (s: seq<Byte>)
      requires Valid()
      reads this`sb, this`sbN, this`ext, this`inSb, this`pos, this`n, sb
      ensures |s| == n
    {
      if inSb then sb[pos..pos + n] else ext[pos..pos + n]
    }

    /** Everything that is left to read. */
    ghost function Stream(): seq<Byte>
      requires Valid()
      reads this, sb
    {
      Buffered() + (if eof then [] else Flat(chunks))
    }

    /** A reader of pieces; the buffer has LJ_MIN_SBUF bytes. */
    constructor (pieces: seq<seq<Byte>>)
      ensures Valid() && Stream() == Flat(pieces) && stack == [] && !eof && fresh(sb)
    {
      sb := new Byte[32](_ => 0);
      sbN, ext, inSb, pos, n, eof := 0, [], false, 0, 0, false;
      chunks, stack, flags := pieces, [], Flags(false, false, false);
      new;
      assert Stream() == [] + Flat(pieces);
    }

    // ----- the buffer -----

    /** `bcread_resize` */
    method Resize(len: nat)
      requires sb.Length > 0
      modifies this`sb
      ensures sb.Length >= len && sb.Length > 0 && (sb == old(sb) || fresh(sb))
      ensures sb.Length >= old(sb.Length) && sb[..old(sb.Length)] == old(sb[..])
    {
      if sb.Length < len {
        var sz := sb.Length * 2;
        while len > sz
          invariant sz >= sb.Length * 2
          decreases len - sz
        {
          sz := sz * 2;
        }
        var buf := new Byte[sz](_ => 0);
        forall i | 0 <= i < sb.Length {
          buf[i] := sb[i];
        }
        sb := buf;
      }
    }

    /** `memcpy`, to the own buffer */
    method Copy(at: nat, bytes: seq<Byte>)
      requires at + |bytes| <= sb.Length
      modifies sb
      ensures sb[..at + |bytes|] == old(sb[..at]) + bytes
    {
      forall i | 0 <= i < |bytes| {
        sb[at + i] := bytes[i];
      }
    }

    /** What is left moves to the start of the own buffer; the loop of `bcread_fill` begins with it. */
    method MoveDown(len: nat)
      requires Valid() && n < len
      modifies this`sb, this`sbN, this`inSb, this`pos, sb
      ensures Valid() && Buffered() == old(Buffered()) && sbN == n && (sb == old(sb) || fresh(sb))
    {
      if n > 0 {
        if sbN > 0 {
          if n != sbN {
            Copy(0, sb[pos..pos + n]);
          }
        } else {
          Resize(len);
          Copy(0, ext[pos..pos + n]);
        }
        pos, inSb := 0, true;
      }
      sbN := n;
    }

    /** The next piece is appended to what is left, or taken as it is if nothing is left. */
    method Append(buf: seq<Byte>, len: nat)
      requires Valid() && sbN == n && (n > 0 ==> pos == 0)
      modifies this`sb, this`sbN, this`inSb, this`pos, this`n, this`ext, sb
      ensures Valid() && Buffered() == old(Buffered()) + buf && (sb == old(sb) || fresh(sb))
    {
      if sbN > 0 {
        ghost var before := Buffered();
        var m := sbN + |buf|;
        Resize(Max(m, len));
        assert sb[..sbN] == before;
        Copy(sbN, buf);
        n, sbN, pos := m, m, 0;
        assert sb[..m] == sb[0..m];
      } else {
        n, ext, pos, inSb := |buf|, buf, 0, false;
      }
    }

    /** One turn of the loop in `bcread_fill`: a piece more, unless there is none. */
    method NextPiece(len: nat) returns (more: bool)
      requires Valid() && n < len && !eof
      modifies this`sb, this`sbN, this`inSb, this`pos, this`n, this`ext, this`chunks, sb
      ensures Valid() && (sb == old(sb) || fresh(sb)) && Stream() == old(Stream())
      ensures if more then |chunks| < |old(chunks)| else n == |Stream()| && n == old(n)
    {
      hide Flat, Buffered;
      ghost var rest, flat := Buffered(), Flat(chunks);
      MoveDown(len);
      FlatStart(chunks);
      if chunks == [] || chunks[0] == [] {
        return false;
      }
      var buf := chunks[0];
      chunks := chunks[1..];
      Append(buf, len);
      Joined(rest, buf, Flat(chunks));
      return true;
    }

    /** `bcread_fill`: at least len bytes are buffered, or, if they are only wanted, all there are. */
    method Fill(len: nat, need: bool) returns (ok: bool)
      requires Valid() && n < len
      modifies this`sb, this`sbN, this`inSb, this`pos, this`n, this`ext, this`eof, this`chunks, sb
      ensures Valid() && (sb == old(sb) || fresh(sb))
      ensures ok ==> Stream() == old(Stream()) && (n >= len || (!need && eof))
      ensures ok <==> len <= MAX_MEM && !old(eof) && (need ==> |old(Stream())| >= len)
      ensures ok && eof ==> |old(Stream())| < len
    {
      hide Valid, Flat;
      if len > MAX_MEM || eof {
        return false;
      }
      ghost var all := Stream();
      while n < len
        invariant Valid() && !eof && Stream() == all && (sb == old(sb) || fresh(sb))
        decreases |chunks|
      {
        var more := NextPiece(len);
        if !more {
          if need {
            return false;
          }
          assert Flat(chunks) == [];
          eof := true;
          return true;
        }
      }
      ok := true;
    }

    // ----- bytes and numbers -----

    function At(k: nat): (b: Byte)
      requires Valid() && k < n
      reads this`sb, this`sbN, this`ext, this`inSb, this`pos, this`n, sb
      ensures b == Buffered()[k]
    {
      if inSb then sb[pos + k] else ext[pos + k]
    }

    /** `bcread_mem` */
    method Mem(len: nat) returns (ok: bool, bytes: seq<Byte>)
      requires Valid()
      modifies this`pos, this`n
      ensures Valid() && (ok <==> len <= old(n))
      ensures if ok then bytes == old(Buffered())[..len] && Buffered() == old(Buffered())[len..]
        else Buffered() == old(Buffered())
    {
      if n < len {
        return false, [];
      }
      ok, bytes := true, if inSb then sb[pos..pos + len] else ext[pos..pos + len];
      pos, n := pos + len, n - len;
    }

    /** `bcread_byte` */
    method ReadByte() returns (ok: bool, b: Byte)
      requires Valid()
      modifies this`pos, this`n
      ensures Valid() && (ok <==> old(n) > 0)
      ensures if ok then b == old(Buffered())[0] && Buffered() == old(Buffered())[1..]
        else Buffered() == old(Buffered())
    {
      if n == 0 {
        return false, 0;
      }
      ok, b := true, At(0);
      pos, n := pos + 1, n - 1;
    }

    /** The loop of `bcread_uleb128` and of `bcread_uleb128_33`: m is the weight of the next seven bits, x what they and
        the rest encode. */
    method ReadUlebTail(v0: nat, m0: nat, ghost x0: nat, ghost want: nat, ghost rest: seq<Byte>)
      returns (ok: bool, v: nat)
      requires Valid() && m0 > 0
      modifies this`pos, this`n
      ensures Valid() && n <= old(n)
      ensures old(Buffered()) == PutUleb(x0, rest) && want == v0 + x0 * m0 && x0 > 0 && want < WORD ==>
        ok && v == want && Buffered() == rest
    {
      hide Valid, Buffered, PutUleb;
      ghost var good := Buffered() == PutUleb(x0, rest) && want == v0 + x0 * m0 && x0 > 0 && want < WORD;
      v := v0;
      var m := m0;
      ghost var x: nat := x0;
      while true
        invariant Valid() && m > 0 && n <= old(n)
        invariant good ==> Buffered() == PutUleb(x, rest) && want == v + x * m && x > 0
        decreases n
      {
        UlebStep(x, rest);
        if good {
          GroupFits(want, v, x, m);
        }
        var b;
        ok, b := ReadByte();
        if !ok || m >= WORD {
          return false, 0;
        }
        v := (v + b % 0x80 * m) % WORD;
        m := m * 0x80;
        if b < 0x80 {
          return;
        }
        x := x / 0x80;
      }
    }

    /** `bcread_uleb128` */
    method ReadUleb(ghost want: nat, ghost rest: seq<Byte>) returns (ok: bool, v: nat)
      requires Valid()
      modifies this`pos, this`n
      ensures Valid() && n <= old(n)
      ensures old(Buffered()) == PutUleb(want, rest) && want < WORD ==> ok && v == want && Buffered() == rest
    {
      hide Valid, Buffered, PutUleb;
      UlebStep(want, rest);
      ok, v := ReadByte();
      if ok && v >= 0x80 {
        ok, v := ReadUlebTail(v - 0x80, 0x80, want / 0x80, want, rest);
      }
    }

    /** `bcread_uleb128_33`: the upper 32 of 33 bits */
    method ReadUleb33(ghost want: nat, ghost rest: seq<Byte>) returns (ok: bool, v: nat)
      requires Valid()
      modifies this`pos, this`n
      ensures Valid()
      ensures old(Buffered()) == PutUleb(want, rest) && want < 2 * WORD ==> ok && v == want / 2 && Buffered() == rest
    {
      hide Valid, Buffered, PutUleb;
      UlebStep(want, rest);
      var b;
      ok, b := ReadByte();
      v := b / 2;
      if ok && v >= 0x40 {
        HalfGroups(want);
        ok, v := ReadUlebTail(v - 0x40, 0x40, want / 0x80, want / 2, rest);
      }
    }

    // ----- constants -----

    /** `bcread_ktabk` */
    method ReadKey(ghost want: Key, ghost rest: seq<Byte>) returns (ok: bool, key: Key)
      requires Valid()
      modifies this`pos, this`n
      ensures Valid()
      ensures old(Buffered()) == PutKey(want, rest) && GoodKey(want) ==> ok && key == want && Buffered() == rest
    {
      hide Valid, Buffered, PutUleb;
      key := Nil;
      var tp;
      ok, tp := ReadUleb(KeyTag(want), KeyTail(want, rest));
      if !ok {
        return;
      }
      if tp >= 5 {
        ghost var after := Buffered();
        var bytes;
        ok, bytes := Mem(tp - 5);
        key := Text(bytes);
        if want.Text? && after == want.bytes + rest {
          Front(want.bytes, rest);
        }
      } else if tp == 3 {
        var n;
        ok, n := ReadUleb(if want.Int? then want.n else 0, rest);
        key := Int(n);
      } else if tp == 4 {
        var lo, hi;
        ok, lo, hi := ReadPair(if want.Num? then want.lo else 0, if want.Num? then want.hi else 0, rest);
        key := Num(lo, hi);
      } else {
        key := if tp == 0 then Nil else if tp == 1 then False else True;
      }
    }

    /** Two words of 32 bits */
    method ReadPair(ghost a: nat, ghost b: nat, ghost rest: seq<Byte>) returns (ok: bool, lo: nat, hi: nat)
      requires Valid()
      modifies this`pos, this`n
      ensures Valid()
      ensures old(Buffered()) == PutUleb(a, PutUleb(b, rest)) && a < WORD && b < WORD ==>
        ok && lo == a && hi == b && Buffered() == rest
    {
      hide Valid, Buffered, PutUleb;
      hi := 0;
      ok, lo := ReadUleb(a, PutUleb(b, rest));
      if ok {
        ok, hi := ReadUleb(b, rest);
      }
    }

    method ReadKeys(count: nat, ghost want: seq<Key>, ghost rest: seq<Byte>) returns (ok: bool, keys: seq<Key>)
      requires Valid()
      modifies this`pos, this`n
      ensures Valid()
      ensures old(Buffered()) == PutKeys(want, rest) && count == |want| && GoodKeys(want) ==>
        ok && keys == want && Buffered() == rest
    {
      hide Valid, Buffered, PutKey, GoodKey;
      ghost var good := Buffered() == PutKeys(want, rest) && count == |want| && GoodKeys(want);
      ok, keys := true, [];
      assert want[0..] == want;
      for i := 0 to count
        invariant Valid() && ok
        invariant good ==> Buffered() == PutKeys(want[i..], rest) && keys == want[..i]
      {
        assert good ==> want[i..][1..] == want[i + 1..];
        var key;
        ok, key := ReadKey(if good then want[i] else Nil, if good then PutKeys(want[i + 1..], rest) else []);
        if !ok {
          return;
        }
        keys := keys + [key];
      }
      assert good ==> want[count..] == [] && want[..count] == want;
    }

    method ReadPairs(count: nat, ghost want: seq<(Key, Key)>, ghost rest: seq<Byte>)
      returns (ok: bool, pairs: seq<(Key, Key)>)
      requires Valid()
      modifies this`pos, this`n
      ensures Valid()
      ensures old(Buffered()) == PutPairs(want, rest) && count == |want| && GoodPairs(want) ==>
        ok && pairs == want && Buffered() == rest
    {
      hide Valid, Buffered, PutKey, GoodKey;
      ghost var good := Buffered() == PutPairs(want, rest) && count == |want| && GoodPairs(want);
      ok, pairs := true, [];
      assert want[0..] == want;
      for i := 0 to count
        invariant Valid() && ok
        invariant good ==> Buffered() == PutPairs(want[i..], rest) && pairs == want[..i]
      {
        assert good ==> want[i..][1..] == want[i + 1..];
        ghost var after := if good then PutPairs(want[i + 1..], rest) else [];
        var key, value;
        ok, key := ReadKey(if good then want[i].0 else Nil, if good then PutKey(want[i].1, after) else []);
        if !ok {
          return;
        }
        ok, value := ReadKey(if good then want[i].1 else Nil, after);
        if !ok {
          return;
        }
        pairs := pairs + [(key, value)];
      }
      assert good ==> want[count..] == [] && want[..count] == want;
    }

    /** A child is the prototype on top of the stack. */
    method PopChild() returns (status: Status, c: Const)
      modifies this`stack
      ensures if old(stack) == [] then status == Bad && stack == []
        else status == Fine && c == Child(old(stack)[|old(stack)| - 1]) && stack == old(stack)[..|old(stack)| - 1]
    {
      if stack == [] {
        return Bad, Str([]);
      }
      status, c := Fine, Child(stack[|stack| - 1]);
      stack := stack[..|stack| - 1];
    }

    /** `bcread_ktab` */
    method ReadTable(ghost want: Const, ghost rest: seq<Byte>) returns (ok: bool, c: Const)
      requires Valid() && want.Table?
      modifies this`pos, this`n
      ensures Valid()
      ensures old(Buffered()) == ConstTail(want, rest) && GoodConst(want) ==> ok && c == want && Buffered() == rest
    {
      hide Valid, Buffered, PutUleb, PutKeys, PutPairs;
      c := Str([]);
      ghost var pairs := PutPairs(want.pairs, rest);
      var narray, nhash;
      ok, narray, nhash := ReadPair(|want.entries|, |want.pairs|, PutKeys(want.entries, pairs));
      if !ok {
        return;
      }
      var keys, hash;
      ok, keys := ReadKeys(narray, want.entries, pairs);
      if !ok {
        return;
      }
      ok, hash := ReadPairs(nhash, want.pairs, rest);
      c := Table(keys, hash);
    }

    /** One turn of the loop in `bcread_kgc` */
    method ReadConst(ghost want: Const, ghost rest: seq<Byte>, ghost below: seq<Proto>)
      returns (status: Status, c: Const)
      requires Valid()
      modifies this`pos, this`n, this`stack
      ensures Valid()
      ensures ConstReady(old(Buffered()), old(stack), want, rest, below) ==>
        status == Fine && c == want && Buffered() == rest && stack == below
    {
      hide Valid, Buffered, PutUleb, PutKeys, PutPairs, GoodKeys, GoodPairs;
      ghost var good := Buffered() == PutConst(want, rest) && GoodConst(want);
      ConstParts(want, rest);
      c := Str([]);
      var ok, tp := ReadUleb(ConstTag(want), ConstTail(want, rest));
      if !ok {
        return Undefined, c;
      }
      if tp >= 5 {
        var bytes;
        ok, bytes := Mem(tp - 5);
        c := Str(bytes);
        if good && want.Str? {
          Front(want.bytes, rest);
        }
      } else if tp == 1 {
        ok, c := ReadTable(if want.Table? then want else Table([], []), rest);
      } else if tp != 0 {
        ok, c := ReadCdata(tp, want, rest);
      } else {
        status, c := PopChild();
        return;
      }
      status := if ok then Fine else Undefined;
    }

    /** The words of a 64-bit integer or of a complex number */
    method ReadCdata(tp: nat, ghost want: Const, ghost rest: seq<Byte>) returns (ok: bool, c: Const)
      requires Valid() && 2 <= tp <= 4
      modifies this`pos, this`n
      ensures Valid()
      ensures old(Buffered()) == ConstTail(want, rest) && GoodConst(want) && tp == ConstTag(want) ==>
        ok && c == want && Buffered() == rest
    {
      hide Valid, Buffered, PutUleb, PutKeys, PutPairs;
      c := Str([]);
      ghost var a, b := FirstWords(want).0, FirstWords(want).1;
      ghost var imaginary := if want.Complex? then PutUleb(want.ilo, PutUleb(want.ihi, rest)) else rest;
      var lo, hi;
      ok, lo, hi := ReadPair(a, b, imaginary);
      if !ok {
        return;
      }
      if tp == 4 {
        var ilo, ihi;
        ok, ilo, ihi := ReadPair(if want.Complex? then want.ilo else 0, if want.Complex? then want.ihi else 0, rest);
        c := Complex(lo, hi, ilo, ihi);
      } else {
        c := if tp == 2 then I64(lo, hi) else U64(lo, hi);
      }
    }

    /** `bcread_kgc`; the children of p among the constants are on the stack, the first one on top. */
    method ReadConsts(count: nat, ghost p: Proto, ghost rest: seq<Byte>, ghost below: seq<Proto>)
      returns (status: Status, consts: seq<Const>)
      requires Valid()
      modifies this`pos, this`n, this`stack
      ensures Valid()
      ensures ConstsReady(old(Buffered()), old(stack), count, p, rest, below) ==>
        status == Fine && consts == p.kgc && Buffered() == rest && stack == below
    {
      hide Valid, Buffered, PutConst, GoodConst;
      ghost var want := p.kgc;
      ghost var good := ConstsReady(Buffered(), stack, count, p, rest, below);
      status, consts := Fine, [];
      assert want[0..] == want;
      for i := 0 to count
        invariant Valid() && status == Fine
        invariant good ==> Buffered() == PutConsts(want[i..], rest) && consts == want[..i]
        invariant good ==> stack == below + Kids(p, i)
      {
        assert good ==> want[i..][1..] == want[i + 1..];
        ghost var under := if good then below + Kids(p, i + 1) else [];
        if good {
          assert stack == under + (if want[i].Child? then [want[i].proto] else []);
        }
        var c;
        status, c := ReadConst(if good then want[i] else Str([]), if good then PutConsts(want[i + 1..], rest) else [],
          under);
        if status != Fine {
          return;
        }
        consts := consts + [c];
      }
      if good {
        assert want[count..] == [] && want[..count] == want && below + [] == below;
      }
    }

    /** One turn of the loop in `bcread_knum` */
    method ReadNumber(ghost want: Number, ghost rest: seq<Byte>) returns (ok: bool, number: Number)
      requires Valid()
      modifies this`pos, this`n
      ensures Valid()
      ensures old(Buffered()) == PutNumber(want, rest) && GoodNumber(want) ==>
        ok && number == want && Buffered() == rest
    {
      hide Valid, Buffered, PutUleb;
      number := Integer(0);
      if n == 0 {
        return false, number;
      }
      var isnum := At(0) % 2;
      ghost var w := if want.Integer? then 2 * want.n else 2 * want.lo + 1;
      ghost var after := if want.Integer? then rest else PutUleb(want.hi, rest);
      UlebStep(w, after);
      var lo;
      ok, lo := ReadUleb33(w, after);
      if !ok {
        return;
      }
      if isnum == 1 {
        var hi;
        ok, hi := ReadUleb(if want.Double? then want.hi else 0, rest);
        number := Double(lo, hi);
      } else {
        number := Integer(lo);
      }
    }

    /** `bcread_knum` */
    method ReadNumbers(count: nat, ghost want: seq<Number>, ghost rest: seq<Byte>)
      returns (ok: bool, numbers: seq<Number>)
      requires Valid()
      modifies this`pos, this`n
      ensures Valid()
      ensures old(Buffered()) == PutNumbers(want, rest) && count == |want| && GoodNumbers(want) ==>
        ok && numbers == want && Buffered() == rest
    {
      hide Valid, Buffered, PutNumber, GoodNumber;
      ghost var good := Buffered() == PutNumbers(want, rest) && count == |want| && GoodNumbers(want);
      ok, numbers := true, [];
      assert want[0..] == want;
      for i := 0 to count
        invariant Valid() && ok
        invariant good ==> Buffered() == PutNumbers(want[i..], rest) && numbers == want[..i]
      {
        assert good ==> want[i..][1..] == want[i + 1..];
        var number;
        ok, number := ReadNumber(if good then want[i] else Integer(0),
          if good then PutNumbers(want[i + 1..], rest) else []);
        if !ok {
          return;
        }
        numbers := numbers + [number];
      }
      assert good ==> want[count..] == [] && want[..count] == want;
    }

    // ----- words -----

    /** A block of words, in the order of the host, which is little-endian; swap says that the dump's order is the other
        one. */
    method ReadWords(count: nat, width: nat, swap: bool, ghost want: seq<nat>, ghost rest: seq<Byte>)
      returns (ok: bool, words: seq<nat>)
      requires Valid()
      modifies this`pos, this`n
      ensures Valid()
      ensures old(Buffered()) == PutWords(want, width, swap, rest) && count == |want| && GoodWords(want, width) ==>
        ok && words == want && Buffered() == rest
    {
      hide Valid, Buffered, PutWords, LittleWords, GoodWords, Bswap;
      var bytes;
      ghost var good := Buffered() == PutWords(want, width, swap, rest) && count == |want| && GoodWords(want, width);
      if good {
        BlockRead(want, width, swap, rest);
      }
      ok, bytes := Mem(count * width);
      if !ok {
        return false, [];
      }
      var a := FromBytes(bytes, count, width);
      if swap {
        SwapAll(a, width);
      }
      words := a[..];
    }

    // ----- prototypes -----

    /** `bcread_want` and `bcread_need` */
    method Ask(len: nat, need: bool) returns (ok: bool)
      requires Valid()
      modifies this`sb, this`sbN, this`inSb, this`pos, this`n, this`ext, this`eof, this`chunks, sb
      ensures Valid() && (sb == old(sb) || fresh(sb))
      ensures ok ==> Stream() == old(Stream()) && (n >= len || (!need && eof))
      ensures !old(eof) && len <= MAX_MEM && (need ==> len <= |old(Stream())|) ==> ok
      ensures old(eof) && len <= |old(Stream())| ==> ok
      ensures ok && |old(Stream())| >= len ==> eof == old(eof)
    {
      hide Valid, Flat;
      if n < len {
        ok := Fill(len, need);
      } else {
        ok := true;
      }
    }

    /** The sizes in the head of a prototype */
    method ReadSizes(ghost want: Proto, ghost rest: seq<Byte>) returns (ok: bool, h: Head)
      requires Valid()
      modifies this`pos, this`n
      ensures Valid()
      ensures old(Buffered()) == PutSizes(want, flags, rest) && GoodProto(want, flags) ==>
        ok && h == HeadOf(want) && Buffered() == rest
    {
      hide Valid, Buffered, PutUleb, GoodWords, GoodConsts, GoodNumbers;
      ghost var debug := if flags.strip then rest else PutDebugHead(want.debug, rest);
      h := Head(0, 0, 0, 0, 0, 0);
      var kgc, kn, bc, size;
      ok, kgc, kn := ReadPair(|want.kgc|, |want.knum|, PutUleb(|want.bc|, debug));
      if !ok {
        return;
      }
      ok, bc := ReadUleb(|want.bc|, debug);
      if !ok {
        return;
      }
      h := Head(kgc, kn, bc, 0, 0, 0);
      if !flags.strip {
        ghost var first, num := if want.debug.Lines? then want.debug.firstline else 0,
          if want.debug.Lines? then want.debug.numline else 0;
        ok, size := ReadUleb(DebugSize(want.debug),
          if want.debug.Lines? then PutUleb(first, PutUleb(num, rest)) else rest);
        if ok && size > 0 {
          var firstline, numline;
          ok, firstline, numline := ReadPair(first, num, rest);
          h := h.(sizedbg := size, firstline := firstline, numline := numline);
        }
      }
    }

    /** `bcread_dbg` */
    method ReadDebug(h: Head, ghost want: Debug, ghost rest: seq<Byte>) returns (ok: bool, debug: Debug)
      requires Valid()
      modifies this`pos, this`n
      ensures Valid()
      ensures old(Buffered()) == PutDebug(want, flags.be, rest) && GoodDebug(want, h.bc) && DebugHead(want, h) ==>
        ok && debug == want && Buffered() == rest
    {
      hide Valid, Buffered, PutWords, GoodWords;
      if h.sizedbg == 0 {
        return true, NoDebug;
      }
      debug := NoDebug;
      var width := LineWidth(h.numline);
      if h.sizedbg < width * h.bc {
        return false, debug;
      }
      ghost var lines, names := if want.Lines? then want.lines else [], if want.Lines? then want.names else [];
      SmallLines(lines, flags.be, names + rest);
      var words, bytes;
      ok, words := ReadWords(h.bc, width, flags.be && h.numline >= 0x100, lines, names + rest);
      if !ok {
        return;
      }
      Front(names, rest);
      ok, bytes := Mem(h.sizedbg - width * h.bc);
      debug := Lines(h.firstline, h.numline, words, bytes);
    }

    /** The arrays of a prototype */
    method ReadArrays(h: Head, sizeuv: nat, ghost want: Proto, ghost rest: seq<Byte>, ghost below: seq<Proto>)
      returns (status: Status, p: Proto)
      requires Valid()
      modifies this`pos, this`n, this`stack
      ensures Valid()
      ensures old(Buffered()) == PutArrays(want, flags, rest) && Matches(want, flags, h, sizeuv, old(stack), below) ==>
        status == Fine && p == want.(flags := 0, numparams := 0, framesize := 0) && Buffered() == rest && stack == below
    {
      hide Valid, Buffered, PutWords, PutConsts, PutNumbers, PutDebug, GoodWords, GoodConsts, GoodNumbers, GoodDebug;
      hide Kids,
        PutBody, DebugSize;
      ghost var be := flags.be;
      ghost var debug := PutDebug(want.debug, be, rest);
      ghost var numbers := PutNumbers(want.knum, debug);
      ghost var consts := PutConsts(want.kgc, numbers);
      p := Proto(0, 0, 0, [], [], [], [], NoDebug);
      var ok, bc := ReadWords(h.bc, 4, flags.be, want.bc, PutWords(want.uv, 2, be, consts));
      if !ok {
        return Undefined, p;
      }
      var uv;
      ok, uv := ReadWords(sizeuv, 2, flags.be, want.uv, consts);
      if !ok {
        return Undefined, p;
      }
      var kgc;
      status, kgc := ReadConsts(h.kgc, want, numbers, below);
      if status != Fine {
        return;
      }
      var knum;
      ok, knum := ReadNumbers(h.kn, want.knum, debug);
      if !ok {
        return Undefined, p;
      }
      var dbg;
      ok, dbg := ReadDebug(h, want.debug, rest);
      p := Proto(0, 0, 0, bc, uv, kgc, knum, dbg);
      status := if ok then Fine else Undefined;
    }

    /** The part of `bcread_proto` behind the length */
    method ReadBody(ghost want: Proto, ghost rest: seq<Byte>, ghost below: seq<Proto>)
      returns (status: Status, p: Proto)
      requires Valid()
      modifies this`pos, this`n, this`stack
      ensures Valid()
      ensures BodyReady(old(Buffered()), old(stack), want, flags, rest, below) ==>
        status == Fine && p == want && Buffered() == rest && stack == below
    {
      hide Valid, Buffered, PutSizes, PutArrays, GoodWords, GoodConsts, GoodNumbers, GoodDebug, Kids;
      p := Proto(0, 0, 0, [], [], [], [], NoDebug);
      var ok, head := Mem(4);
      if !ok {
        return Undefined, p;
      }
      ghost var arrays := PutArrays(want, flags, rest);
      var h;
      ok, h := ReadSizes(want, arrays);
      if !ok {
        return Undefined, p;
      }
      status, p := ReadArrays(h, head[3], want, rest, below);
      p := p.(flags := head[0], numparams := head[1], framesize := head[2]);
    }

    /** The length in front of a prototype; 0 is the end. */
    method ReadLength(ghost want: nat, ghost after: seq<Byte>) returns (status: Status, len: nat)
      requires Valid()
      modifies this`sb, this`sbN, this`inSb, this`pos, this`n, this`ext, this`eof, this`chunks, sb
      ensures Valid() && (sb == old(sb) || fresh(sb))
      ensures status == Fine ==> |Stream()| <= |old(Stream())|
      ensures old(Stream()) == PutUleb(want, after) && |PutUleb(want, after)| >= 5 && 0 < want < WORD && !old(eof) ==>
        status == Fine && len == want && Stream() == after && !eof
      ensures old(Stream()) == [0] && !old(eof) ==> status == Fine && len == 0 && n == 0
    {
      hide Valid, Buffered, Flat, PutUleb;
      ghost var good := Stream() == PutUleb(want, after) && |PutUleb(want, after)| >= 5 && 0 < want < WORD && !eof;
      ghost var last := Stream() == [0] && !eof;
      UlebStep(want, after);
      if n > 0 && At(0) == 0 {
        var _, _ := Mem(1);
        return Fine, 0;
      }
      var ok := Ask(5, false);
      if !ok {
        return Bad, 0;
      }
      ghost var flat := if eof then [] else Flat(chunks);
      if good {
        UlebWithin(want, after, Buffered(), flat);
      }
      if last {
        assert Buffered() == [0];
        ZeroUleb();
      }
      ok, len := ReadUleb(if last then 0 else want, if last then [] else UlebAfter(want, Buffered()));
      status := if ok then Fine else Undefined;
    }

    /** `bcread_proto`; None is the end. */
    method ReadProto(ghost want: Proto, ghost rest: seq<Byte>, ghost below: seq<Proto>)
      returns (status: Status, p: Option<Proto>)
      requires Valid()
      modifies this`sb, this`sbN, this`inSb, this`pos, this`n, this`ext, this`eof, this`chunks, this`stack, sb
      ensures Valid() && (sb == old(sb) || fresh(sb))
      ensures status == Fine && p.Some? ==> |Stream()| < |old(Stream())|
      ensures ProtoReady(old(Stream()), old(stack), want, flags, rest, below) && !old(eof) ==>
        status == Fine && p == Some(want) && Stream() == rest && stack == below && !eof
      ensures old(Stream()) == [0] && !old(eof) ==> status == Fine && p == None && n == 0 && stack == old(stack)
    {
      hide Valid, Buffered, Flat, PutUleb, PutBody, GoodProto, Kids;
      ghost var good := ProtoReady(Stream(), stack, want, flags, rest, below) && !eof;
      ghost var size := if good then |PutBody(want, flags, [])| else 0;
      ghost var body := if good then PutBody(want, flags, rest) else [];
      if good {
        ProtoSize(want, flags, rest);
      }
      p := None;
      var len;
      status, len := ReadLength(size, body);
      if status != Fine || len == 0 {
        return;
      }
      var ok := Ask(len, true);
      if !ok {
        return Bad, None;
      }
      var startn := n;
      ghost var flat := if eof then [] else Flat(chunks);
      if good {
        BodyWithin(want, flags, rest, Buffered(), flat);
      }
      var pt;
      status, pt := ReadBody(want, if good then Buffered()[size..] else [], below);
      if status != Fine {
        return;
      }
      if len != startn - n {
        return Bad, None;
      }
      p := Some(pt);
    }

    /** `bcread_header`, behind the first byte; known says that the reader knows the format. */
    method ReadHeader(chunkarg: seq<Byte>, ghost f: Flags, ghost name: seq<Byte>, ghost rest: seq<Byte>)
      returns (status: Status, known: bool, chunkname: seq<Byte>)
      requires Valid()
      modifies this`sb, this`sbN, this`inSb, this`pos, this`n, this`ext, this`eof, this`chunks, this`flags, sb
      ensures Valid() && (sb == old(sb) || fresh(sb))
      ensures HeaderReady(old(Stream()), f, name, rest) && !old(eof) ==>
        status == Fine && known && chunkname == (if f.strip then chunkarg else name) && Stream() == rest &&
          flags == f && !eof
    {
      hide Valid, Buffered, Flat, PutUleb, PutHeader;
      ghost var good := HeaderReady(Stream(), f, name, rest) && !eof;
      known, chunkname := false, [];
      var ok := Ask(13, false);
      if !ok {
        return Bad, known, chunkname;
      }
      ghost var s := Buffered();
      if good {
        HeaderWithin(f, name, rest, s, if eof then [] else Flat(chunks));
      }
      status, known := ReadFlags(f, if |s| >= 4 then s[4..] else []);
      if status == Fine && known {
        if flags.strip {
          chunkname := chunkarg;
        } else {
          status, chunkname := ReadName(name, rest);
        }
      }
    }

    /** The magic bytes, the version and the flags */
    method ReadFlags(ghost f: Flags, ghost rest: seq<Byte>) returns (status: Status, known: bool)
      requires Valid()
      modifies this`pos, this`n, this`flags
      ensures Valid()
      ensures var s := old(Buffered());
        |s| >= 3 && s[..3] == [0x4c, 0x4a, 1] && s[3..] == PutUleb(FlagBits(f), rest) ==>
          status == Fine && known && flags == f && Buffered() == rest
    {
      hide Valid, Buffered, PutUleb;
      var ok, magic := Mem(3);
      if !ok {
        return Undefined, false;
      }
      if magic != [0x4c, 0x4a, 1] {
        return Fine, false;
      }
      var bits;
      ok, bits := ReadUleb(FlagBits(f), rest);
      if !ok {
        return Undefined, false;
      }
      if bits >= 8 {
        return Fine, false;
      }
      flags := Flags(bits % 2 == 1, bits / 2 % 2 == 1, bits / 4 == 1);
      return Fine, true;
    }

    /** The name in the header */
    method ReadName(ghost name: seq<Byte>, ghost rest: seq<Byte>) returns (status: Status, chunkname: seq<Byte>)
      requires Valid()
      modifies this`sb, this`sbN, this`inSb, this`pos, this`n, this`ext, this`eof, this`chunks, sb
      ensures Valid() && (sb == old(sb) || fresh(sb))
      ensures old(Stream()) == PutUleb(|name|, name + rest) && !old(eof) && |name| < MAX_MEM && old(n) >= 5 ==>
        status == Fine && chunkname == name && Stream() == rest && !eof
    {
      hide Valid, Buffered, Flat, PutUleb;
      ghost var good := Stream() == PutUleb(|name|, name + rest) && !eof && |name| < MAX_MEM && n >= 5;
      ghost var s := Buffered();
      if good {
        UlebWithin(|name|, name + rest, s, if eof then [] else Flat(chunks));
      }
      chunkname := [];
      var ok, len := ReadUleb(|name|, UlebAfter(|name|, s));
      if !ok {
        return Undefined, chunkname;
      }
      ok := Ask(len, true);
      if !ok {
        return Bad, chunkname;
      }
      if good {
        NameWithin(name, rest, Buffered(), if eof then [] else Flat(chunks));
      }
      ok, chunkname := Mem(len);
      status := if ok then Fine else Undefined;
    }

    /** `lj_bcread`: a well-formed dump of a tree gives the tree back, in whatever pieces it comes. */
    method Load(chunkarg: seq<Byte>, ghost f: Flags, ghost name: seq<Byte>, ghost main: Proto) returns (r: Loaded)
      requires Valid() && stack == []
      modifies this, sb
      ensures GoodDump(f, name, main) && old(Stream()) == Dump(f, name, main) && !old(eof) ==>
        r == Loaded(main, if f.strip then chunkarg else name)
    {
      hide Valid, Buffered, Flat, PutUleb, PutBody, PutProto, PutProtos, PutHeader, GoodProto, Kids, HasKids, Order;
      ghost var good := GoodDump(f, name, main) && Stream() == Dump(f, name, main) && !eof;
      ghost var order := if good then Order(main) else [];
      if good {
        DumpStart(f, name, main);
      }
      var status, known, chunkname := ReadHeader(chunkarg, f, name, if good then PutProtos(order, f, [0]) else []);
      if status != Fine {
        return if status == Bad then BadDump else Unspecified;
      }
      if !known {
        return BadFormat;
      }
      status := ReadAll(order, main);
      if status != Fine {
        return if status == Bad then BadDump else Unspecified;
      }
      if n > 0 || |stack| != 1 {
        return BadDump;
      }
      return Loaded(stack[0], chunkname);
    }

    /** The loop of `lj_bcread` */
    method ReadAll(ghost order: seq<Proto>, ghost main: Proto) returns (status: Status)
      requires Valid()
      modifies this`sb, this`sbN, this`inSb, this`pos, this`n, this`ext, this`eof, this`chunks, this`stack, sb
      ensures Valid()
      ensures ProtosReady(old(Stream()), old(stack), order, flags, main) && !old(eof) ==>
        status == Fine && n == 0 && stack == [main]
    {
      hide Valid, Buffered, Flat, PutUleb, PutBody, PutProto, GoodProto, Kids;
      ghost var good := ProtosReady(Stream(), stack, order, flags, main) && !eof;
      ghost var todo := order;
      while true
        invariant Valid() && (sb == old(sb) || fresh(sb))
        invariant good ==> ProtosReady(Stream(), stack, todo, flags, main) && !eof
        decreases |Stream()|
      {
        ghost var next := good && todo != [];
        ghost var want := if next then todo[0] else main;
        ghost var below := if next then stack[..|stack| - |Kids(want, 0)|] else [];
        var p;
        status, p := ReadProto(want, if next then PutProtos(todo[1..], flags, [0]) else [], below);
        if status != Fine || p.None? {
          return;
        }
        stack := stack + [p.value];
        todo := if next then todo[1..] else [];
      }
    }
  }

  // ----- facts about what is put -----

  lemma UlebStep(x: nat, rest: seq<Byte>)
    ensures var s := PutUleb(x, rest);
      && |s| > 0 && s[0] == (if x < 0x80 then x else x % 0x80 + 0x80)
      && s[1..] == if x < 0x80 then rest else PutUleb(x / 0x80, rest)
  {
  }

  lemma ZeroUleb()
    ensures PutUleb(0, []) == [0]
  {
  }

  /** A number of 32 bits takes at most five bytes. */
  lemma UlebShort(n: nat)
    requires n < WORD
    ensures 1 <= |PutUleb(n, [])| <= 5
  {
    UlebLength(n / 0x1000_0000, 1);
    UlebLength(n / 0x20_0000, 2);
    UlebLength(n / 0x4000, 3);
    UlebLength(n / 0x80, 4);
  }

  lemma UlebLength(n: nat, k: nat)
    requires k > 0 && (n >= 0x80 ==> |PutUleb(n / 0x80, [])| <= k - 1)
    ensures |PutUleb(n, [])| <= k
  {
  }

  /** What is behind the number at the start of s. */
  ghost function UlebAfter(n: nat, s: seq<Byte>): seq<Byte> {
    var k := |PutUleb(n, [])|;
    if k <= |s| then s[k..] else []
  }

  /** When the stream starts with a number, five bytes of it are enough to read it. */
  lemma UlebWithin(n: nat, after: seq<Byte>, s: seq<Byte>, flat: seq<Byte>)
    requires n < WORD && s + flat == PutUleb(n, after) && |s| >= 5
    ensures s == PutUleb(n, UlebAfter(n, s)) && UlebAfter(n, s) + flat == after
  {
    hide PutUleb;
    var head := PutUleb(n, []);
    UlebShort(n);
    assert [] + after == after && [] + s[|head|..] == s[|head|..];
    UlebSplit(n, [], after);
    UlebSplit(n, [], s[|head|..]);
    assert (s + flat)[..|head|] == s[..|head|] && (s + flat)[|head|..] == s[|head|..] + flat;
    assert s == s[..|head|] + s[|head|..];
  }

  lemma ProtoSize(p: Proto, f: Flags, rest: seq<Byte>)
    requires GoodProto(p, f)
    ensures 7 <= |PutBody(p, f, [])| <= MAX_MEM
    ensures |PutBody(p, f, rest)| == |PutBody(p, f, [])| + |rest|
    ensures |PutProto(p, f, rest)| > |PutBody(p, f, rest)|
  {
    hide PutSizes, PutArrays;
    BodySplit(p, f, rest);
  }

  lemma BodyWithin(p: Proto, f: Flags, rest: seq<Byte>, s: seq<Byte>, flat: seq<Byte>)
    requires GoodProto(p, f) && s + flat == PutBody(p, f, rest) && |s| >= |PutBody(p, f, [])|
    ensures var size := |PutBody(p, f, [])|; s == PutBody(p, f, s[size..]) && s[size..] + flat == rest
  {
    hide PutBody;
    var body := PutBody(p, f, []);
    BodySplit(p, f, rest);
    BodySplit(p, f, s[|body|..]);
    assert (s + flat)[..|body|] == s[..|body|] && (s + flat)[|body|..] == s[|body|..] + flat;
    assert s == s[..|body|] + s[|body|..];
  }

  ghost predicate ProtoReady(s: seq<Byte>, stack: seq<Proto>, p: Proto, f: Flags, rest: seq<Byte>, below: seq<Proto>) {
    GoodProto(p, f) && GoodBytes(p) && s == PutProto(p, f, rest) && stack == below + Kids(p, 0)
  }

  ghost predicate HeaderReady(s: seq<Byte>, f: Flags, name: seq<Byte>, rest: seq<Byte>) {
    s == PutHeader(f, name, rest) && |name| < MAX_MEM && |s| >= 13
  }

  lemma HeaderWithin(f: Flags, name: seq<Byte>, rest: seq<Byte>, s: seq<Byte>, flat: seq<Byte>)
    requires HeaderReady(s + flat, f, name, rest) && |s| >= 4
    ensures s[..3] == [0x4c, 0x4a, 1] && s[3..] == PutUleb(FlagBits(f), s[4..])
    ensures s[4..] + flat == if f.strip then rest else PutUleb(|name|, name + rest)
  {
    hide PutHeader, PutUleb;
    HeaderBytes(f, name, rest);
    OneByte(FlagBits(f), s[4..]);
    var head, tail := s[..4], s[4..];
    assert head + (tail + flat) == s + flat && s[3..] == [s[3]] + tail && s[..3] == head[..3];
    assert (s + flat)[..4] == head && (s + flat)[4..] == tail + flat;
  }

  lemma HeaderBytes(f: Flags, name: seq<Byte>, rest: seq<Byte>)
    ensures var s := PutHeader(f, name, rest);
      && |s| >= 4 && s[..4] == [0x4c, 0x4a, 1, FlagBits(f)]
      && s[4..] == if f.strip then rest else PutUleb(|name|, name + rest)
  {
    hide PutUleb;
    var after := if f.strip then rest else PutUleb(|name|, name + rest);
    OneByte(FlagBits(f), after);
    Front([0x4c, 0x4a, 1, FlagBits(f)], after);
    FourBytes(0x4c, 0x4a, 1, FlagBits(f), after);
  }

  lemma FourBytes(a: Byte, b: Byte, c: Byte, d: Byte, rest: seq<Byte>)
    ensures [a, b, c] + ([d] + rest) == [a, b, c, d] + rest
  {
  }

  lemma OneByte(n: nat, rest: seq<Byte>)
    requires n < 0x80
    ensures PutUleb(n, rest) == [n] + rest
  {
  }

  lemma NameWithin(name: seq<Byte>, rest: seq<Byte>, s: seq<Byte>, flat: seq<Byte>)
    requires s + flat == name + rest && |s| >= |name|
    ensures s[..|name|] == name && s[|name|..] + flat == rest
  {
    assert (s + flat)[..|name|] == s[..|name|] && (s + flat)[|name|..] == s[|name|..] + flat;
    Front(name, rest);
  }

  ghost predicate AllGood(protos: seq<Proto>, f: Flags) {
    forall p | p in protos :: GoodProto(p, f) && GoodBytes(p)
  }

  ghost predicate ProtosReady(s: seq<Byte>, stack: seq<Proto>, order: seq<Proto>, f: Flags, main: Proto) {
    AllGood(order, f) && s == PutProtos(order, f, [0]) && Built(stack, order) == [main]
  }

  /** A dump has at least 13 bytes behind the first one, and its prototypes build its tree. */
  lemma DumpStart(f: Flags, name: seq<Byte>, main: Proto)
    requires GoodDump(f, name, main)
    ensures AllGood(Order(main), f) && HeaderReady(Dump(f, name, main), f, name, PutProtos(Order(main), f, [0]))
    ensures Built([], Order(main)) == [main]
  {
    hide PutUleb, PutBody, GoodProto, Order, Kids, HasKids;
    var order := Order(main);
    var rest := PutProtos(order[1..], f, [0]);
    PutProtosLength(order[1..], f, [0]);
    assert order[0] in order;
    ProtoSize(order[0], f, rest);
    OrderBuilds([], main, []);
    assert order + [] == order && [] + [main] == [main];
  }

  lemma {:induction false} PutProtosLength(order: seq<Proto>, f: Flags, rest: seq<Byte>)
    requires AllGood(order, f)
    ensures |PutProtos(order, f, rest)| >= |rest|
  {
    hide PutBody, PutUleb, GoodProto;
    if order == [] {
    } else {
      assert order[0] in order;
      assert forall p | p in order[1..] :: p in order;
      ProtoSize(order[0], f, PutProtos(order[1..], f, rest));
      PutProtosLength(order[1..], f, rest);
    }
  }

  lemma GroupFits(want: nat, v: nat, x: nat, m: nat)
    requires want == v + x * m && want < WORD && x > 0 && m > 0
    ensures m < WORD && v + x % 0x80 * m < WORD && want == v + x % 0x80 * m + x / 0x80 * (m * 0x80)
  {
    assert x == x % 0x80 + 0x80 * (x / 0x80);
    assert x * m == x % 0x80 * m + x / 0x80 * (m * 0x80);
    assert x * m >= m by {
      assert x * m == m + (x - 1) * m;
    }
    assert x / 0x80 * (m * 0x80) >= 0;
  }

  lemma HalfGroups(want: nat)
    ensures want / 2 == want % 0x80 / 2 + want / 0x80 * 0x40
  {
  }

  lemma Front(a: seq<Byte>, b: seq<Byte>)
    ensures (a + b)[..|a|] == a && (a + b)[|a|..] == b
  {
  }

  /** The tag in front of a key, and what follows it. */
  ghost function KeyTag(k: Key): nat {
    match k
    case Nil => 0
    case False => 1
    case True => 2
    case Int(_) => 3
    case Num(_, _) => 4
    case Text(bytes) => 5 + |bytes|
  }

  ghost function KeyTail(k: Key, rest: seq<Byte>): seq<Byte> {
    match k
    case Int(n) => PutUleb(n, rest)
    case Num(lo, hi) => PutUleb(lo, PutUleb(hi, rest))
    case Text(bytes) => bytes + rest
    case _ => rest
  }

  /** The sizes in the head of a prototype */
  datatype Head = Head(kgc: nat, kn: nat, bc: nat, sizedbg: nat, firstline: nat, numline: nat)

  ghost function HeadOf(p: Proto): Head {
    Head(|p.kgc|, |p.knum|, |p.bc|, DebugSize(p.debug), if p.debug.Lines? then p.debug.firstline else 0,
      if p.debug.Lines? then p.debug.numline else 0)
  }

  ghost predicate DebugHead(d: Debug, h: Head) {
    && h.sizedbg == DebugSize(d)
    && h.firstline == (if d.Lines? then d.firstline else 0) && h.numline == (if d.Lines? then d.numline else 0)
  }

  ghost predicate Matches(p: Proto, f: Flags, h: Head, sizeuv: nat, stack: seq<Proto>, below: seq<Proto>) {
    GoodProto(p, f) && h == HeadOf(p) && sizeuv == |p.uv| && stack == below + Kids(p, 0)
  }

  ghost predicate BodyReady(s: seq<Byte>, stack: seq<Proto>, p: Proto, f: Flags, rest: seq<Byte>, below: seq<Proto>) {
    GoodProto(p, f) && s == PutBody(p, f, rest) && stack == below + Kids(p, 0)
  }

  /** The order of bytes makes no difference to words of one byte. */
  lemma {:induction false} SmallLines(lines: seq<nat>, be: bool, rest: seq<Byte>)
    ensures PutWords(lines, 1, be, rest) == PutWords(lines, 1, false, rest)
  {
    if lines == [] {
    } else {
      SmallLines(lines[1..], be, rest);
      assert Reversed(Little(lines[0], 1)) == Little(lines[0], 1);
    }
  }

  ghost predicate ConstReady(s: seq<Byte>, stack: seq<Proto>, want: Const, rest: seq<Byte>, below: seq<Proto>) {
    s == PutConst(want, rest) && GoodConst(want) && stack == below + (if want.Child? then [want.proto] else [])
  }

  ghost predicate ConstsReady(s: seq<Byte>, stack: seq<Proto>, count: nat, p: Proto, rest: seq<Byte>,
      below: seq<Proto>) {
    s == PutConsts(p.kgc, rest) && count == |p.kgc| && GoodConsts(p.kgc) && stack == below + Kids(p, 0)
  }

  ghost function ConstTag(c: Const): nat {
    match c
    case Child(_) => 0
    case Table(_, _) => 1
    case I64(_, _) => 2
    case U64(_, _) => 3
    case Complex(_, _, _, _) => 4
    case Str(bytes) => 5 + |bytes|
  }

  ghost function ConstTail(c: Const, rest: seq<Byte>): seq<Byte> {
    match c
    case Child(_) => rest
    case Table(entries, pairs) => PutUleb(|entries|, PutUleb(|pairs|, PutKeys(entries, PutPairs(pairs, rest))))
    case I64(lo, hi) => PutUleb(lo, PutUleb(hi, rest))
    case U64(lo, hi) => PutUleb(lo, PutUleb(hi, rest))
    case Complex(rlo, rhi, ilo, ihi) => PutUleb(rlo, PutUleb(rhi, PutUleb(ilo, PutUleb(ihi, rest))))
    case Str(bytes) => bytes + rest
  }

  lemma ConstParts(c: Const, rest: seq<Byte>)
    ensures PutConst(c, rest) == PutUleb(ConstTag(c), ConstTail(c, rest)) && (GoodConst(c) ==> ConstTag(c) < WORD)
  {
    hide PutUleb, PutKeys, PutPairs;
  }

  ghost function FirstWords(c: Const): (nat, nat) {
    match c
    case I64(lo, hi) => (lo, hi)
    case U64(lo, hi) => (lo, hi)
    case Complex(rlo, rhi, _, _) => (rlo, rhi)
    case _ => (0, 0)
  }

  // ----- byte order -----

  /** `lj_bswap` */
  function Bswap(n: nat, width: nat): nat {
    FromLittle(Reversed(Little(n, width)))
  }

  function LittleWords(bytes: seq<Byte>, count: nat, width: nat): (words: seq<nat>)
    requires |bytes| == count * width
    ensures |words| == count
    decreases count
  {
    if count == 0 then []
    else
      MulLess(count, width);
      [FromLittle(bytes[..width])] + LittleWords(bytes[width..], count - 1, width)
  }

  lemma MulLess(count: nat, width: nat)
    requires count > 0
    ensures count * width == width + (count - 1) * width && (count - 1) * width >= 0
  {
  }

  function Swapped(words: seq<nat>, width: nat): (s: seq<nat>)
    ensures |s| == |words| && forall i | 0 <= i < |words| :: s[i] == Bswap(words[i], width)
  {
    seq(|words|, i requires 0 <= i < |words| => Bswap(words[i], width))
  }

  method FromBytes(bytes: seq<Byte>, count: nat, width: nat) returns (a: array<nat>)
    requires |bytes| == count * width
    ensures fresh(a) && a[..] == LittleWords(bytes, count, width)
  {
    a := new nat[count];
    var o := 0;
    ghost var all := LittleWords(bytes, count, width);
    assert bytes[0..] == bytes;
    for i := 0 to count
      invariant o <= |bytes| && |bytes[o..]| == (count - i) * width
      invariant a[..i] + LittleWords(bytes[o..], count - i, width) == all
    {
      MulLess(count - i, width);
      var w := FromLittle(bytes[o..o + width]);
      assert bytes[o..][..width] == bytes[o..o + width] && bytes[o..][width..] == bytes[o + width..];
      a[i] := w;
      assert a[..i + 1] == a[..i] + [w];
      o := o + width;
    }
  }

  method SwapAll(a: array<nat>, width: nat)
    modifies a
    ensures a[..] == Swapped(old(a[..]), width)
  {
    for i := 0 to a.Length
      invariant forall j | 0 <= j < i :: a[j] == Bswap(old(a[j]), width)
      invariant forall j | i <= j < a.Length :: a[j] == old(a[j])
    {
      a[i] := Bswap(a[i], width);
    }
  }

  lemma WordRead(n: nat, width: nat)
    requires n < Power(width)
    ensures FromLittle(Little(n, width)) == n && Bswap(FromLittle(Reversed(Little(n, width))), width) == n
  {
    var s := Little(n, width);
    LittleRoundTrip(n, width);
    FromLittleRoundTrip(Reversed(s));
    ReversedTwice(s);
  }

  /** Words come back as they were, whichever order the dump has. */
  lemma {:induction false} WordsRead(want: seq<nat>, width: nat, swap: bool)
    requires GoodWords(want, width)
    ensures var bytes := PutWords(want, width, swap, []);
      && |bytes| == |want| * width
      && var words := LittleWords(bytes, |want|, width); want == if swap then Swapped(words, width) else words
    decreases |want|
  {
    hide *;
    if want == [] {
      WordsNone(width, swap);
    } else {
      GoodWordsParts(want, width);
      WordRead(want[0], width);
      WordsRead(want[1..], width, swap);
      WordsParts(want, width, swap);
      var words := LittleWords(PutWords(want[1..], width, swap, []), |want| - 1, width);
      SwappedParts(FromLittle(PutWords(want, width, swap, [])[..width]), words, width);
      assert want == [want[0]] + want[1..];
    }
  }

  lemma WordsNone(width: nat, swap: bool)
    ensures PutWords([], width, swap, []) == [] && LittleWords([], 0, width) == [] && Swapped([], width) == []
  {
  }

  lemma SwappedParts(first: nat, words: seq<nat>, width: nat)
    ensures Swapped([first] + words, width) == [Bswap(first, width)] + Swapped(words, width)
  {
    hide Bswap;
  }

  lemma GoodWordsParts(want: seq<nat>, width: nat)
    requires GoodWords(want, width) && want != []
    ensures want[0] < Power(width) && GoodWords(want[1..], width)
  {
  }

  lemma WordsParts(want: seq<nat>, width: nat, swap: bool)
    requires want != []
    ensures var bytes, tail := PutWords(want, width, swap, []), PutWords(want[1..], width, swap, []);
      && |bytes| == |want| * width && |tail| == (|want| - 1) * width
      && bytes[..width] == (if swap then Reversed(Little(want[0], width)) else Little(want[0], width))
      && LittleWords(bytes, |want|, width) == [FromLittle(bytes[..width])] + LittleWords(tail, |want| - 1, width)
  {
    hide Little, Reversed, FromLittle;
    var bytes, tail := PutWords(want, width, swap, []), PutWords(want[1..], width, swap, []);
    MulLess(|want|, width);
    assert bytes[width..] == tail;
  }

  lemma BlockRead(want: seq<nat>, width: nat, swap: bool, rest: seq<Byte>)
    requires GoodWords(want, width)
    ensures var all := PutWords(want, width, swap, rest); var k := |want| * width;
      && k <= |all| && all[k..] == rest
      && var words := LittleWords(all[..k], |want|, width); want == if swap then Swapped(words, width) else words
  {
    hide GoodWords, LittleWords, PutWords;
    assert [] + rest == rest;
    WordsSplit(want, width, swap, [], rest);
    WordsRead(want, width, swap);
    Front(PutWords(want, width, swap, []), rest);
  }
}
