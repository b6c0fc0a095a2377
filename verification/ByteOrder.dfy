/** Numbers as bytes, in both orders. */
module ByteOrder {

  type Byte = b: int | 0 <= b < 0x100

  /** n as k bytes, the least significant first. */
  function Little(n: nat, k: nat): (s: seq<Byte>)
    ensures |s| == k
  {
    if k == 0 then [] else [n % 0x100] + Little(n / 0x100, k - 1)
  }

  function FromLittle(s: seq<Byte>): nat {
    if s == [] then 0 else s[0] + 0x100 * FromLittle(s[1..])
  }

  function Reversed(s: seq<Byte>): (r: seq<Byte>)
    ensures |r| == |s| && forall i | 0 <= i < |s| :: r[i] == s[|s| - 1 - i]
  {
    seq(|s|, i requires 0 <= i < |s| => s[|s| - 1 - i])
  }

  lemma ReversedTwice(s: seq<Byte>)
    ensures Reversed(Reversed(s)) == s
  {
  }

  function Power(k: nat): nat {
    if k == 0 then 1 else 0x100 * Power(k - 1)
  }

  lemma {:induction false} LittleRoundTrip(n: nat, k: nat)
    requires n < Power(k)
    ensures FromLittle(Little(n, k)) == n
  {
    if k == 0 {
    } else {
      LittleRoundTrip(n / 0x100, k - 1);
      assert Little(n, k)[1..] == Little(n / 0x100, k - 1);
    }
  }

  lemma {:induction false} FromLittleRoundTrip(s: seq<Byte>)
    ensures FromLittle(s) < Power(|s|) && Little(FromLittle(s), |s|) == s
  {
    if s == [] {
    } else {
      FromLittleRoundTrip(s[1..]);
      var n := FromLittle(s);
      assert n % 0x100 == s[0] && n / 0x100 == FromLittle(s[1..]);
      assert s == [s[0]] + s[1..];
    }
  }
}
