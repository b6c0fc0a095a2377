/** Bin indexes of large chunks: `compute_tree_index` and the macros that invert it. */
module TreeIndex {

  function Pow2(n: nat): (r: nat)
    ensures r > 0
  {
    if n == 0 then 1 else 2 * Pow2(n - 1)
  }

  /** `lj_fls`: the index of the highest set bit. */
  function Fls(x: nat): nat
    requires x > 0
  {
    if x == 1 then 0 else 1 + Fls(x / 2)
  }

  /** `compute_tree_index`; X is an `unsigned int`, so it holds 32 bits of the shifted size. */
  function Index(s: nat): nat {
    var x := s / 256 % 0x1_0000_0000;
    if x == 0 then 0
    else if x > 0xFFFF then 31
    else
      var k := Fls(x);
      2 * k + s / Pow2(k + 7) % 2
  }

  /** `minsize_for_tree_index` */
  function MinSize(i: nat): nat {
    Pow2(i / 2 + 8) + i % 2 * Pow2(i / 2 + 7)
  }

  /** Number of size bits a tree bin leaves open: `bit_for_tree_index` plus one. */
  function Width(i: nat): nat {
    if i == 31 then 64 else i / 2 + 7
  }

  /** Start of the aligned interval of sizes that the trie of bin i divides. */
  function Low(i: nat): nat {
    if i == 31 then 0 else MinSize(i)
  }

  /** `leftshift_for_tree_index` */
  function LeftShift(i: nat): nat
    requires i < 32
  {
    if i == 31 then 0 else 63 - (i / 2 + 6)
  }

  lemma {:induction false} Pow2Sum(a: nat, b: nat)
    ensures Pow2(a + b) == Pow2(a) * Pow2(b)
  {
    if a > 0 {
      Pow2Sum(a - 1, b);
    }
  }

  lemma {:induction false} Pow2Monotone(a: nat, b: nat)
    requires a <= b
    ensures Pow2(a) <= Pow2(b)
  {
    if a < b {
      Pow2Monotone(a, b - 1);
    }
  }

  lemma Pow2Values()
    ensures Pow2(7) == 0x80 && Pow2(8) == 0x100 && Pow2(16) == 0x1_0000
    ensures Pow2(22) == 0x40_0000 && Pow2(23) == 0x80_0000 && Pow2(32) == 0x1_0000_0000
    ensures Pow2(40) == 0x100_0000_0000
    ensures Pow2(63) == 0x8000_0000_0000_0000 && Pow2(64) == 0x1_0000_0000_0000_0000
  {
    hide Pow2;
    Pow2Low();
    Pow2Sum(8, 8);
    Pow2Sum(16, 7);
    Pow2Sum(16, 6);
    Pow2Sum(16, 16);
    Pow2Sum(32, 8);
    Pow2Sum(32, 32);
    Pow2Twice(63);
  }

  lemma Pow2Low()
    ensures Pow2(6) == 64 && Pow2(7) == 128 && Pow2(8) == 256
  {
    assert Pow2(3) == 8;
    assert Pow2(6) == 64;
    assert Pow2(7) == 2 * Pow2(6);
    assert Pow2(8) == 2 * Pow2(7);
  }

  lemma Pow2Twice(n: nat)
    ensures Pow2(n + 1) == 2 * Pow2(n)
  {
  }

  lemma {:induction false} FlsBounds(x: nat)
    requires x > 0
    ensures Pow2(Fls(x)) <= x < Pow2(Fls(x) + 1)
  {
    if x > 1 {
      FlsBounds(x / 2);
    }
  }

  lemma {:induction false} MinSizeStep(i: nat)
    ensures MinSize(i + 1) == MinSize(i) + Pow2(i / 2 + 7)
    ensures MinSize(i) % Pow2(i / 2 + 7) == 0
  {
    assert Pow2(i / 2 + 8) == 2 * Pow2(i / 2 + 7);
    assert Pow2(i / 2 + 9) == 2 * Pow2(i / 2 + 8);
    var p := Pow2(i / 2 + 7);
    assert MinSize(i) == (2 + i % 2) * p;
    MulMod(2 + i % 2, p);
    if i % 2 == 1 {
      assert (i + 1) / 2 == i / 2 + 1;
    } else {
      assert (i + 1) / 2 == i / 2;
    }
  }

  lemma MulMod(a: nat, p: nat)
    requires p > 0
    ensures (a * p) % p == 0 && (a * p) / p == a
  {
    DivModUnique(a * p, p, a, 0);
  }

  lemma DivModUnique(x: nat, p: nat, q: int, r: int)
    requires p > 0 && x == q * p + r && 0 <= r < p
    ensures x / p == q && x % p == r
  {
    var d := x / p - q;
    assert x == x / p * p + x % p;
    assert d * p == r - x % p;
    SmallMultiple(d, p);
  }

  lemma SmallMultiple(d: int, p: int)
    requires -p < d * p < p
    ensures d == 0
  {
    if d >= 1 {
      MulMonotone(1, d, p);
    } else if d <= -1 {
      MulMonotone(d, -1, p);
    }
  }

  lemma MulMonotone(a: int, b: int, p: int)
    requires a <= b && p >= 0
    ensures a * p <= b * p
  {
  }

  lemma {:induction false} MinSizeMonotone(i: nat, j: nat)
    requires i <= j
    ensures MinSize(i) <= MinSize(j)
  {
    if i < j {
      MinSizeStep(j - 1);
      MinSizeMonotone(i, j - 1);
    }
  }

  /** The part of the index that comes from the leading bits of a size. */
  lemma LeadingBits(s: nat, x: nat)
    requires x == s / 256 && 0 < x
    ensures var k := Fls(x); var i := 2 * k + s / Pow2(k + 7) % 2;
      MinSize(i) <= s < MinSize(i + 1)
  {
    hide Pow2, Fls, MinSize;
    var k := Fls(x);
    var p := Pow2(k + 7);
    LeadingPower(s, x);
    QuotientHalf(s, p);
    BinHalves(k);
    if s < 3 * p {
      assert 2 * k + s / p % 2 == 2 * k;
    } else {
      assert 2 * k + s / p % 2 == 2 * k + 1;
    }
  }

  lemma LeadingPower(s: nat, x: nat)
    requires x == s / 256 && 0 < x
    ensures 2 * Pow2(Fls(x) + 7) <= s < 4 * Pow2(Fls(x) + 7)
  {
    var k := Fls(x);
    FlsBounds(x);
    ScaleBounds(s, x, Pow2(k));
    Pow2Sum(k, 7);
    assert Pow2(7) == 128;
  }

  lemma ScaleBounds(s: nat, x: nat, a: nat)
    requires x == s / 256 && a <= x < 2 * a
    ensures 256 * a <= s < 512 * a
  {
  }

  lemma QuotientHalf(s: nat, p: nat)
    requires p > 0 && 2 * p <= s < 4 * p
    ensures s / p % 2 == if s < 3 * p then 0 else 1
  {
    if s < 3 * p {
      DivModUnique(s, p, 2, s - 2 * p);
    } else {
      DivModUnique(s, p, 3, s - 3 * p);
    }
  }

  lemma BinHalves(k: nat)
    ensures var p := Pow2(k + 7);
      MinSize(2 * k) == 2 * p && MinSize(2 * k + 1) == 3 * p && MinSize(2 * k + 2) == 4 * p
  {
    assert (2 * k) / 2 == k && (2 * k) % 2 == 0;
    assert (2 * k + 1) / 2 == k && (2 * k + 1) % 2 == 1;
    assert (2 * k + 2) / 2 == k + 1 && (2 * k + 2) % 2 == 0;
    assert Pow2(k + 8) == 2 * Pow2(k + 7);
    assert Pow2(k + 1 + 8) == 2 * Pow2(k + 8);
  }

  /** Where the index is right: sizes below 2^40, and larger ones whose truncated size still lands in the last bin. */
  predicate Indexable(s: nat) {
    s < 0x100_0000_0000 || s / 256 % 0x1_0000_0000 >= 0xC000
  }

  predicate InBin(s: nat, i: nat) {
    i < 32 && MinSize(i) <= s && (i < 31 ==> s < MinSize(i + 1))
  }

  lemma LastBinMin()
    ensures MinSize(31) == 0xC0_0000
  {
    Pow2Values();
    assert MinSize(31) == Pow2(23) + Pow2(22);
  }

  /** The index names the bin whose sizes include s exactly when the truncation does no harm. */
  lemma IndexCorrect(s: nat)
    requires s >= 256
    ensures InBin(s, Index(s)) <==> Indexable(s)
  {
    var y := s / 256;
    LastBinMin();
    if y < 0x1_0000_0000 {
      IndexUntruncated(s, y);
    } else {
      IndexTruncated(s);
    }
  }

  lemma IndexUntruncated(s: nat, y: nat)
    requires s >= 256 && y == s / 256 < 0x1_0000_0000
    ensures InBin(s, Index(s))
  {
    hide Pow2, Fls, MinSize;
    assert s / 256 % 0x1_0000_0000 == y;
    if y <= 0xFFFF {
      var i := 2 * Fls(y) + s / Pow2(Fls(y) + 7) % 2;
      assert Index(s) == i;
      LeadingBits(s, y);
      assert i < 32 by { IndexSmallX(y); }
    } else {
      assert Index(s) == 31;
      LastBinMin();
    }
  }

  lemma IndexTruncated(s: nat)
    requires s >= 0x100_0000_0000
    ensures InBin(s, Index(s)) <==> s / 256 % 0x1_0000_0000 >= 0xC000
  {
    hide Pow2, Fls, MinSize;
    var x := s / 256 % 0x1_0000_0000;
    LastBinMin();
    if x == 0 {
      WrapTooSmall(s, 0);
    } else if x <= 0xFFFF {
      IndexSmallX(x);
      TruncatedLead(s, x);
      if Index(s) < 31 {
        WrapTooSmall(s, Index(s));
      }
    }
  }

  lemma IndexSmallX(x: nat)
    requires 0 < x <= 0xFFFF
    ensures Fls(x) <= 15
  {
    FlsBounds(x);
    Pow2Values();
    if Fls(x) >= 16 {
      Pow2Monotone(16, Fls(x));
    }
  }

  /** A size of 2^40 or more is above every bin but the last. */
  lemma WrapTooSmall(s: nat, i: nat)
    requires s >= 0x100_0000_0000 && i < 31
    ensures s >= MinSize(i + 1)
  {
    LastBinMin();
    MinSizeMonotone(i + 1, 31);
  }

  /** With X truncated but at most 0xFFFF, the last bin is chosen exactly from 0xC000 on. */
  lemma TruncatedLead(s: nat, x: nat)
    requires x == s / 256 % 0x1_0000_0000 && 0 < x <= 0xFFFF
    ensures 2 * Fls(x) + s / Pow2(Fls(x) + 7) % 2 == 31 <==> x >= 0xC000
  {
    hide Fls, Pow2;
    IndexSmallX(x);
    Pow2Values();
    TopFls(x);
    if Fls(x) == 15 {
      ShiftedBit(s, x);
    }
  }

  lemma TopFls(x: nat)
    requires 0 < x <= 0xFFFF && Fls(x) <= 15
    ensures Fls(x) == 15 <==> x >= 0x8000
  {
    FlsBounds(x);
    Pow2Values();
    assert Pow2(16) == 2 * Pow2(15);
    if Fls(x) < 15 {
      Pow2Monotone(Fls(x) + 1, 15);
    }
  }

  lemma ShiftedBit(s: nat, x: nat)
    requires x == s / 256 % 0x1_0000_0000
    ensures s / 0x40_0000 % 2 == x / 0x4000 % 2
  {
    var y := s / 256;
    var u, v := y / 0x4000, x / 0x4000;
    assert s / 0x40_0000 == u;
    var z := y / 0x1_0000_0000;
    assert y == z * 0x1_0000_0000 + x;
    UpperPart(y, x, z);
    assert u == 2 * (z * 0x2_0000) + v;
  }

  lemma UpperPart(y: nat, x: nat, z: nat)
    requires y == z * 0x1_0000_0000 + x
    ensures y / 0x4000 == z * 0x4_0000 + x / 0x4000
  {
  }

  /** The smallest size that goes wrong: 2^40 is taken for a size of the first bin. */
  lemma IndexMisplaces()
    ensures Index(0x100_0000_0000) == 0 && !InBin(0x100_0000_0000, 0) && !Indexable(0x100_0000_0000)
  {
    Pow2Values();
    assert MinSize(1) == Pow2(8) + Pow2(7);
  }

  /** Larger sizes never go to a lower bin. */
  lemma IndexMonotone(s: nat, t: nat)
    requires 256 <= s <= t < 0x100_0000_0000
    ensures Index(s) <= Index(t) < 32
  {
    IndexCorrect(s);
    IndexCorrect(t);
    if Index(t) < Index(s) {
      MinSizeMonotone(Index(t) + 1, Index(s));
    }
  }

  /** The interval that the trie of a bin divides holds every size of the bin and is aligned to its own width. */
  lemma BinInterval(s: nat, i: nat)
    requires InBin(s, i) && s < Pow2(64)
    ensures Low(i) <= s < Low(i) + Pow2(Width(i))
    ensures Low(i) % Pow2(Width(i)) == 0
  {
    MinSizeStep(i);
  }

  /** The bit that a trie descent tests: the top bit of the shifted size says which half of the interval holds s. */
  lemma TopBit(s: nat, lo: nat, w: nat, key: nat)
    requires 0 < w <= 64 && lo % Pow2(w) == 0 && lo <= s < lo + Pow2(w)
    requires key == s * Pow2(64 - w) % Pow2(64)
    ensures key / Pow2(63) == if s < lo + Pow2(w - 1) then 0 else 1
    ensures key * 2 % Pow2(64) == s * Pow2(65 - w) % Pow2(64)
  {
    var h, f := Pow2(w - 1), Pow2(64 - w);
    Pow2Sum(w - 1, 64 - w);
    assert Pow2(63) == h * f;
    assert Pow2(w) == 2 * h && Pow2(64) == 2 * Pow2(63) && Pow2(65 - w) == 2 * f;
    AlignedKey(s, lo, h, f, h * f, key);
  }

  lemma AlignedKey(s: nat, lo: nat, h: nat, f: nat, p: nat, key: nat)
    requires h > 0 && f > 0 && p == h * f && p > 0
    requires lo % (2 * h) == 0 && lo <= s < lo + 2 * h
    requires key == s * f % (2 * p)
    ensures key / p == if s < lo + h then 0 else 1
    ensures key * 2 % (2 * p) == s * (2 * f) % (2 * p)
  {
    var c := lo / (2 * h);
    assert lo == c * (2 * h);
    KeyParts(s, c, h, f, p);
    DoubleKey(s * f, 2 * p);
    assert s * (2 * f) == 2 * (s * f);
  }

  /** The two halves of an aligned interval are aligned to their own width. */
  lemma HalvesAligned(lo: nat, w: nat)
    requires 0 < w && lo % Pow2(w) == 0
    ensures lo % Pow2(w - 1) == 0 && (lo + Pow2(w - 1)) % Pow2(w - 1) == 0
  {
    var h := Pow2(w - 1);
    var c := lo / (2 * h);
    assert lo == (2 * c) * h && lo + h == (2 * c + 1) * h;
    MulMod(2 * c, h);
    MulMod(2 * c + 1, h);
  }

  lemma KeyParts(s: nat, c: nat, h: nat, f: nat, p: nat)
    requires h > 0 && f > 0 && p == h * f && p > 0 && c * (2 * h) <= s < c * (2 * h) + 2 * h
    ensures s * f % (2 * p) / p == if s < c * (2 * h) + h then 0 else 1
  {
    var d := s - c * (2 * h);
    Regroup(s, c, d, h, f);
    Halves(d, h, f);
    DivModUnique(s * f, 2 * p, c, d * f);
    if d < h {
      DivModUnique(d * f, p, 0, d * f);
    } else {
      DivModUnique(d * f, p, 1, d * f - p);
    }
  }

  lemma Halves(d: nat, h: nat, f: nat)
    requires f > 0
    ensures d < 2 * h ==> d * f < 2 * (h * f)
    ensures d < h ==> d * f < h * f
    ensures d >= h ==> d * f >= h * f
  {
    if d < 2 * h {
      MulMonotone(d + 1, 2 * h, f);
    }
    if d < h {
      MulMonotone(d + 1, h, f);
    } else {
      MulMonotone(h, d, f);
    }
  }

  lemma Regroup(s: nat, c: nat, d: nat, h: nat, f: nat)
    requires s == c * (2 * h) + d
    ensures s * f == c * (2 * (h * f)) + d * f
  {
    assert s * f == c * (2 * h) * f + d * f;
    assert c * (2 * h) * f == c * (2 * (h * f));
  }

  lemma DoubleKey(x: nat, p: nat)
    requires p > 0
    ensures x % p * 2 % p == 2 * x % p
  {
    var q, r := x / p, x % p;
    assert 2 * x == 2 * r + (2 * q) * p;
    ModAdd(2 * r, 2 * q, p);
  }

  lemma ModAdd(x: nat, q: nat, p: nat)
    requires p > 0
    ensures (x + q * p) % p == x % p
  {
    DivModUnique(x + q * p, p, x / p + q, x % p);
  }
}
