/** `luaL_Buffer`: text that is collected in a small buffer, and in pieces on the stack. */
module LuaBuffer {

  const BUFFERSIZE: nat := 8192
  const MINSTACK: nat := 20

  function Concat(pieces: seq<string>): string {
    if pieces == [] then "" else Concat(pieces[..|pieces| - 1]) + pieces[|pieces| - 1]
  }

  lemma {:induction false} ConcatTop(pieces: seq<string>, k: nat)
    requires k <= |pieces|
    ensures Concat(pieces) == Concat(pieces[..k]) + Concat(pieces[k..])
  {
    var n := |pieces|;
    if k == n {
      assert pieces[..k] == pieces;
    } else {
      ConcatTop(pieces[..n - 1], k);
      assert pieces[..n - 1][..k] == pieces[..k] && pieces[..n - 1][k..] == pieces[k..n - 1];
      assert pieces[k..][..n - 1 - k] == pieces[k..n - 1] && pieces[k..][n - 1 - k] == pieces[n - 1];
    }
  }

  /** lvl pieces of the buffer are on top of the stack; below them is what the caller left there. */
  class Buffer {
    var text: string
    var lvl: nat
    var stack: seq<string>
    ghost const base: seq<string>

    ghost predicate Valid()
      reads this
    {
      |text| <= BUFFERSIZE && |stack| == |base| + lvl && stack[..|base|] == base
    }

    /** The pieces take few slots of the stack. */
    ghost predicate Low()
      reads this
    {
      lvl < MINSTACK / 2
    }

    /** All the text that was added. */
    ghost function Contents(): string
      requires Valid()
      reads this
    {
      Concat(stack[|base|..]) + text
    }

    /** `luaL_buffinit` */
    constructor (stack: seq<string>)
      ensures Valid() && Low() && Contents() == "" && base == stack
    {
      text, lvl, this.stack, base := "", 0, stack, stack;
    }

    /** `emptybuffer` */
    method EmptyBuffer() returns (pushed: bool)
      requires Valid()
      modifies this
      ensures Valid() && Contents() == old(Contents()) && text == ""
      ensures pushed == (old(text) != "") && lvl == old(lvl) + (if pushed then 1 else 0)
      ensures stack == old(stack) + (if pushed then [old(text)] else [])
    {
      if text == "" {
        return false;
      }
      PieceAdded(stack[|base|..], text);
      assert (stack + [text])[|base|..] == stack[|base|..] + [text];
      stack := stack + [text];
      text := "";
      lvl := lvl + 1;
      return true;
    }

    /** `adjuststack` */
    method AdjustStack()
      requires Valid()
      modifies this
      ensures Valid() && Contents() == old(Contents()) && text == old(text)
      ensures Low() && (old(lvl) > 0 ==> 0 < lvl <= old(lvl))
    {
      if lvl > 1 {
        var toget := 1;
        var toplen := |stack[|stack| - 1]|;
        while toget < lvl
          invariant 1 <= toget <= lvl
        {
          var l := |stack[|stack| - toget - 1]|;
          if !(lvl - toget + 1 >= MINSTACK / 2 || toplen > l) {
            break;
          }
          toplen := toplen + l;
          toget := toget + 1;
        }
        ConcatPieces(toget);
        lvl := lvl - toget + 1;
      }
    }

    /** `lua_concat` of the top n values */
    method ConcatPieces(n: nat)
      requires Valid() && 0 < n <= lvl
      modifies this`stack
      ensures stack == old(stack)[..|old(stack)| - n] + [Concat(old(stack)[|old(stack)| - n..])]
      ensures Concat(stack[|base|..]) == old(Concat(stack[|base|..])) && stack[..|base|] == base
    {
      hide Concat;
      ghost var was := stack[|base|..];
      var k := |stack| - n;
      ConcatTop(was, lvl - n);
      assert was[lvl - n..] == stack[k..];
      ghost var piece := Concat(stack[k..]);
      PieceAdded(was[..lvl - n], piece);
      stack := stack[..k] + [Concat(stack[k..])];
      assert stack[|base|..] == was[..lvl - n] + [piece];
    }

    /** `luaL_addchar` */
    method AddChar(c: char)
      requires Valid() && Low()
      modifies this
      ensures Valid() && Low() && Contents() == old(Contents()) + [c]
    {
      if |text| >= BUFFERSIZE {
        var pushed := EmptyBuffer();
        if pushed {
          AdjustStack();
        }
      }
      text := text + [c];
    }

    /** `luaL_addlstring` */
    method AddString(s: string)
      requires Valid() && Low()
      modifies this
      ensures Valid() && Low() && Contents() == old(Contents()) + s
    {
      for i := 0 to |s|
        invariant Valid() && Low() && Contents() == old(Contents()) + s[..i]
      {
        AddChar(s[i]);
      }
    }

    /** `luaL_addvalue`, for a string that the caller has pushed */
    method AddValue(s: string)
      requires Valid() && Low()
      modifies this
      ensures Valid() && Low() && Contents() == old(Contents()) + s
    {
      if |s| <= BUFFERSIZE - |text| {
        text := text + s;
      } else {
        var _ := EmptyBuffer();
        PieceAdded(stack[|base|..], s);
        assert (stack + [s])[|base|..] == stack[|base|..] + [s];
        stack := stack + [s];
        lvl := lvl + 1;
        AdjustStack();
      }
    }

    /** `luaL_pushresult`: one value is left on the stack, the text. */
    method PushResult()
      requires Valid() && Low()
      modifies this
      ensures stack == base + [old(Contents())]
    {
      var _ := EmptyBuffer();
      assert |stack| - lvl == |base| && Contents() == Concat(stack[|base|..]) + text;
      assert Concat(stack[|base|..]) + "" == Concat(stack[|base|..]);
      stack := stack[..|stack| - lvl] + [Concat(stack[|stack| - lvl..])];
      lvl := 1;
    }
  }

  lemma PieceAdded(pieces: seq<string>, piece: string)
    ensures Concat(pieces + [piece]) == Concat(pieces) + piece
  {
    assert (pieces + [piece])[..|pieces|] == pieces;
  }
}
