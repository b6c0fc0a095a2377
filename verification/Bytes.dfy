/** The bytes of the words in memory. */
module Bytes {
  import opened Memory

  function Pow256(k: nat): (r: nat)
    ensures r > 0
  {
    if k == 0 then 1 else 256 * Pow256(k - 1)
  }

  /** Byte k of a word, the lowest first. */
  function ByteOf(w: int, k: nat): int {
    w / Pow256(k) % 256
  }

  function PutByte(w: int, k: nat, b: int): int {
    w + (b - ByteOf(w, k)) * Pow256(k)
  }

  /** The word that holds address a. */
  function WordOf(a: int): int {
    a / 8 * 8
  }

  function Byte(m: Mem, a: int): int {
    ByteOf(Rd(m, WordOf(a)), a % 8)
  }

  lemma {:induction false} PowStep(j: nat, k: nat)
    requires j < k
    ensures Pow256(k) == 256 * Pow256(k - 1 - j) * Pow256(j)
  {
    if j > 0 {
      PowStep(j - 1, k - 1);
      Regroup(Pow256(k - 1 - j), Pow256(j - 1));
    }
  }

  lemma Regroup(a: int, b: int)
    ensures 256 * (256 * a * b) == 256 * a * (256 * b)
  {
  }

  lemma DivUnique(x: int, p: nat, q: int, r: int)
    requires p > 0 && x == q * p + r && 0 <= r < p
    ensures x / p == q
  {
    var d := x / p - q;
    assert x == x / p * p + x % p;
    assert d * p == r - x % p;
    if d >= 1 {
      MulAtLeast(d, p);
    } else if d <= -1 {
      MulAtLeast(-d, p);
    }
  }

  lemma MulAtLeast(d: int, p: nat)
    requires d >= 1
    ensures d * p >= p
  {
  }

  lemma DivAdd(x: int, d: int, p: nat)
    requires p > 0
    ensures (x + d * p) / p == x / p + d
  {
    var q, r := x / p, x % p;
    assert x + d * p == (q + d) * p + r;
    DivUnique(x + d * p, p, q + d, r);
  }

  lemma ModPut(q: int, b: int)
    requires 0 <= b < 256
    ensures (q + (b - q % 256)) % 256 == b
  {
  }

  lemma ModShift(q: int, t: int)
    ensures (q + 256 * t) % 256 == q % 256
  {
  }

  /** The byte put is the byte got. */
  lemma PutGet(w: int, k: nat, b: int)
    requires 0 <= b < 256
    ensures ByteOf(PutByte(w, k, b), k) == b
  {
    hide Pow256, PutByte;
    PutSum(w, k, b);
    ModPut(w / Pow256(k), b);
  }

  lemma PutSum(w: int, k: nat, b: int)
    ensures PutByte(w, k, b) / Pow256(k) == w / Pow256(k) + (b - w / Pow256(k) % 256)
  {
    hide Pow256;
    DivAdd(w, b - ByteOf(w, k), Pow256(k));
  }

  /** Other bytes stay. */
  lemma PutOther(w: int, k: nat, b: int, j: nat)
    requires 0 <= b < 256 && j != k
    ensures ByteOf(PutByte(w, k, b), j) == ByteOf(w, j)
  {
    if j < k {
      PutAbove(w, k, b, j);
    } else {
      PowStep(k, j);
      PutBelow(w, Pow256(k), b, Pow256(j - 1 - k), Pow256(j));
    }
  }

  lemma PutAbove(w: int, k: nat, b: int, j: nat)
    requires j < k
    ensures ByteOf(PutByte(w, k, b), j) == ByteOf(w, j)
  {
    hide Pow256;
    var d, f := b - ByteOf(w, k), Pow256(k - 1 - j);
    PowStep(j, k);
    Spread(d, f, Pow256(j));
    DivAdd(w, 256 * (d * f), Pow256(j));
    ModShift(w / Pow256(j), d * f);
  }

  lemma Spread(d: int, f: int, q: int)
    ensures d * (256 * f * q) == (256 * (d * f)) * q
  {
    assert d * (256 * f * q) == d * (256 * f) * q;
  }

  /** A byte below a power does not change the quotient by it. */
  lemma PutBelow(w: int, p: nat, b: int, f: nat, big: nat)
    requires p > 0 && f > 0 && big == 256 * f * p && 0 <= b < 256
    ensures (w + (b - w / p % 256) * p) / big == w / big
  {
    var q, r := w / p, w % p;
    var q' := q + (b - q % 256);
    assert w == q * p + r && w + (b - q % 256) * p == q' * p + r by {
      assert (q + (b - q % 256)) * p == q * p + (b - q % 256) * p;
    }
    assert q' / 256 == q / 256;
    Nested(q, r, p, f, big);
    Nested(q', r, p, f, big);
    assert (q' / 256) / f == (q / 256) / f;
  }

  /** (q p + r) / (256 f p) = (q / 256) / f */
  lemma Nested(q: int, r: int, p: nat, f: nat, big: nat)
    requires p > 0 && f > 0 && 0 <= r < p && big == 256 * f * p
    ensures (q * p + r) / big == q / 256 / f
  {
    var h, l := q / 256, q % 256;
    var g, n := h / f, h % f;
    assert q == (g * f + n) * 256 + l;
    var rest := (n * 256 + l) * p + r;
    assert q * p + r == g * big + rest by {
      Expand(g, f, n, l, p);
    }
    assert 0 <= rest < big by {
      Inside(n, f, l, p, r);
    }
    DivUnique(q * p + r, big, g, rest);
  }

  lemma Expand(g: int, f: int, n: int, l: int, p: int)
    ensures ((g * f + n) * 256 + l) * p == g * (256 * f * p) + (n * 256 + l) * p
  {
    assert ((g * f + n) * 256 + l) == (g * f) * 256 + (n * 256 + l);
    assert (g * f) * 256 * p == g * (256 * f * p) by {
      assert (g * f) * 256 * p == g * (f * 256 * p);
      assert f * 256 * p == 256 * f * p;
    }
    Distribute((g * f) * 256, n * 256 + l, p);
  }

  lemma Distribute(a: int, b: int, p: int)
    ensures (a + b) * p == a * p + b * p
  {
  }

  lemma Inside(n: int, f: int, l: int, p: int, r: int)
    requires 0 <= n < f && 0 <= l < 256 && 0 <= r < p
    ensures 0 <= (n * 256 + l) * p + r < 256 * f * p
  {
    var t := n * 256 + l;
    assert t + 1 <= 256 * f;
    assert (t + 1) * p <= 256 * f * p by {
      MulLe(t + 1, 256 * f, p);
    }
    assert (t + 1) * p == t * p + p;
    assert t * p >= 0 by {
      MulLe(0, t, p);
    }
  }

  lemma MulLe(a: int, b: int, p: int)
    requires a <= b && p >= 0
    ensures a * p <= b * p
  {
  }

  // ----- bytes in memory -----

  function SetByte(m: Mem, a: int, b: int): Mem {
    m[WordOf(a) := PutByte(Rd(m, WordOf(a)), a % 8, b)]
  }

  lemma SetByteReads(m: Mem, a: int, b: int)
    requires 0 <= b < 256
    ensures Byte(SetByte(m, a, b), a) == b
    ensures forall x | x != a :: Byte(SetByte(m, a, b), x) == Byte(m, x)
  {
    hide ByteOf, PutByte;
    PutGet(Rd(m, WordOf(a)), a % 8, b);
    forall x | x != a
      ensures Byte(SetByte(m, a, b), x) == Byte(m, x)
    {
      if WordOf(x) == WordOf(a) {
        PutOther(Rd(m, WordOf(a)), a % 8, b, x % 8);
      }
    }
  }

  lemma ByteRange(m: Mem, a: int)
    ensures 0 <= Byte(m, a) < 256
  {
  }

  /** Byte i of the bytes from p on. */
  function ByteAt(m: Mem, p: int, i: int): int {
    Byte(m, p + i)
  }

  /** The first k bytes from p on in n are those from q on in m. */
  ghost predicate SameBytes(m: Mem, q: int, n: Mem, p: int, k: int) {
    forall i | 0 <= i < k :: ByteAt(n, p, i) == ByteAt(m, q, i)
  }

  /** Copying one more byte. */
  lemma CopyByte(m0: Mem, m: Mem, dst: int, src: int, i: nat, n: nat)
    requires i < n && SameBytes(m0, src, m, dst, i) && SameBytes(m0, src, m, src, n) &&
      (src + n <= dst || dst + n <= src)
    ensures var m' := SetByte(m, dst + i, Byte(m, src + i));
      SameBytes(m0, src, m', dst, i + 1) && SameBytes(m0, src, m', src, n)
  {
    hide Byte, SetByte;
    var m' := SetByte(m, dst + i, Byte(m, src + i));
    ByteRange(m, src + i);
    SetByteReads(m, dst + i, Byte(m, src + i));
    assert ByteAt(m, src, i) == ByteAt(m0, src, i);
    forall j | 0 <= j < i + 1
      ensures ByteAt(m', dst, j) == ByteAt(m0, src, j)
    {
      if j < i {
        assert ByteAt(m', dst, j) == ByteAt(m, dst, j);
      }
    }
    forall j | 0 <= j < n
      ensures ByteAt(m', src, j) == ByteAt(m0, src, j)
    {
      assert ByteAt(m', src, j) == ByteAt(m, src, j);
    }
  }

  /** Equal words hold equal bytes. */
  lemma WordsToBytes(m: Mem, n: Mem, p: int, k: int)
    requires p % 8 == 0 && forall w | p <= w < p + k && w % 8 == 0 :: Rd(n, w) == Rd(m, w)
    ensures SameBytes(m, p, n, p, k)
  {
    hide ByteOf;
    forall i | 0 <= i < k
      ensures ByteAt(n, p, i) == ByteAt(m, p, i)
    {
      assert p <= WordOf(p + i) < p + k && WordOf(p + i) % 8 == 0;
    }
  }
}
