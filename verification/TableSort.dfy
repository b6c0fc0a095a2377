/** `table.sort`: a quicksort in place, with the median of three as pivot. */
module TableSort {
  import opened TreeIndex

  /** The k-th call of a comparison; it need not agree with the calls before it. */
  type Compare<!T> = (nat, T, T) -> bool

  /** A comparison that is a strict weak order: it does not depend on the call, is asymmetric, and "not greater" is
      transitive. */
  ghost predicate Order<T(!new)>(lt: Compare<T>) {
    && (forall k, x, y :: lt(k, x, y) == lt(0, x, y))
    && (forall x, y :: !(lt(0, x, y) && lt(0, y, x)))
    && (forall x, y, z :: Le(lt, x, y) && Le(lt, y, z) ==> Le(lt, x, z))
  }

  ghost predicate Le<T(!new)>(lt: Compare<T>, x: T, y: T) {
    !lt(0, y, x)
  }

  /** The comparison contradicts itself: it says of some x that it is less than y, and elsewhere that it is not, or that
      y is less than x. */
  ghost predicate Contradicts<T(!new)>(lt: Compare<T>) {
    exists k: nat, m: nat, x, y :: Clash(lt, k, m, x, y)
  }

  predicate Clash<T>(lt: Compare<T>, k: nat, m: nat, x: T, y: T) {
    lt(k, x, y) && (lt(m, y, x) || !lt(m, x, y))
  }

  /** Some answer says that y is not less than x. */
  ghost predicate Noted<T(!new)>(lt: Compare<T>, x: T, y: T) {
    exists k: nat :: lt(k, x, y) || !lt(k, y, x)
  }

  lemma Contradicted<T(!new)>(lt: Compare<T>, k: nat, x: T, y: T)
    requires lt(k, y, x) && Noted(lt, x, y)
    ensures Contradicts(lt)
  {
    var m: nat :| lt(m, x, y) || !lt(m, y, x);
    assert Clash(lt, k, m, y, x);
  }

  lemma NotedNow<T(!new)>(lt: Compare<T>, k: nat, x: T, y: T)
    ensures if lt(k, x, y) then Noted(lt, x, y) else Noted(lt, y, x)
  {
  }

  /** The comparison is the same in every call, and asymmetric; it need not be transitive. */
  ghost predicate Asymmetric<T(!new)>(lt: Compare<T>) {
    && (forall k: nat, x, y :: lt(k, x, y) == lt(0, x, y))
    && (forall x, y :: !(lt(0, x, y) && lt(0, y, x)))
  }

  /** A comparison contradicts itself if and only if it depends on the call or is not asymmetric. */
  lemma NoContradiction<T(!new)>(lt: Compare<T>)
    ensures Contradicts(lt) <==> !Asymmetric(lt)
  {
    if Asymmetric(lt) {
      if Contradicts(lt) {
        Refuted(lt);
      }
    } else if k: nat, x, y :| lt(k, x, y) != lt(0, x, y) {
      assert Clash(lt, if lt(k, x, y) then k else 0, if lt(k, x, y) then 0 else k, x, y);
    } else {
      var x, y :| lt(0, x, y) && lt(0, y, x);
      assert Clash(lt, 0, 0, x, y);
    }
  }

  lemma Refuted<T(!new)>(lt: Compare<T>)
    requires Contradicts(lt)
    ensures !Asymmetric(lt)
  {
    var k: nat, m: nat, x, y :| Clash(lt, k, m, x, y);
  }

  // ----- permutations of a range -----

  /** t is s with the elements from l to u - 1 rearranged. */
  ghost predicate Rearranged<T>(s: seq<T>, t: seq<T>, l: int, u: int)
    requires 0 <= l <= u <= |s|
  {
    |t| == |s| && t[..l] == s[..l] && t[u..] == s[u..] && multiset(t[l..u]) == multiset(s[l..u])
  }

  lemma RearrangedSame<T>(s: seq<T>, l: int, u: int)
    requires 0 <= l <= u <= |s|
    ensures Rearranged(s, s, l, u)
  {
  }

  lemma RearrangedThen<T>(s: seq<T>, t: seq<T>, v: seq<T>, l: int, u: int)
    requires 0 <= l <= u <= |s| && Rearranged(s, t, l, u) && Rearranged(t, v, l, u)
    ensures Rearranged(s, v, l, u)
  {
  }

  /** What is rearranged in a part is rearranged in the whole. */
  lemma RearrangedPart<T>(s: seq<T>, t: seq<T>, l: int, u: int, a: int, b: int)
    requires 0 <= l <= a <= b <= u <= |s| && Rearranged(s, t, a, b)
    ensures Rearranged(s, t, l, u)
  {
    Outside(s, t, a, b);
    assert t[..l] == s[..l] && t[u..] == s[u..];
    assert t[l..a] == s[l..a] && t[b..u] == s[b..u];
    assert t[l..u] == t[l..a] + t[a..b] + t[b..u] && s[l..u] == s[l..a] + s[a..b] + s[b..u];
  }

  lemma Outside<T>(s: seq<T>, t: seq<T>, l: int, u: int)
    requires 0 <= l <= u <= |s| && Rearranged(s, t, l, u)
    ensures |t| == |s| && forall k | 0 <= k < l || u <= k < |s| :: t[k] == s[k]
  {
    forall k | 0 <= k < l || u <= k < |s|
      ensures t[k] == s[k]
    {
      if k < l {
        assert t[..l][k] == s[..l][k];
      } else {
        assert t[u..][k - u] == s[u..][k - u];
      }
    }
  }

  /** Each element of the range comes from the range. */
  lemma ComesFrom<T>(s: seq<T>, t: seq<T>, l: int, u: int, k: int) returns (j: int)
    requires 0 <= l <= k < u <= |s| && Rearranged(s, t, l, u)
    ensures l <= j < u && t[k] == s[j]
  {
    assert t[k] == t[l..u][k - l];
    assert t[k] in multiset(t[l..u]);
    assert t[k] in s[l..u];
    var i :| 0 <= i < u - l && s[l..u][i] == t[k];
    j := l + i;
  }

  /** The elements at i and j exchanged. */
  function Swapped<T>(s: seq<T>, i: int, j: int): seq<T>
    requires 0 <= i < |s| && 0 <= j < |s|
  {
    s[i := s[j]][j := s[i]]
  }

  lemma SwapRearranges<T>(s: seq<T>, i: int, j: int, l: int, u: int)
    requires 0 <= l <= i < u <= |s| && l <= j < u
    ensures Rearranged(s, Swapped(s, i, j), l, u)
  {
    hide Rearranged, Swapped;
    SwapEitherWay(s, i, j);
    var p, q := if i < j then i else j, if i < j then j else i;
    SwapBetween(s, p, q);
    RearrangedPart(s, Swapped(s, p, q), l, u, p, q + 1);
  }

  lemma SwapEitherWay<T>(s: seq<T>, i: int, j: int)
    requires 0 <= i < |s| && 0 <= j < |s|
    ensures |Swapped(s, i, j)| == |s| && Swapped(s, i, j) == Swapped(s, j, i)
  {
  }

  lemma SwapBetween<T>(s: seq<T>, i: int, j: int)
    requires 0 <= i <= j < |s|
    ensures Rearranged(s, Swapped(s, i, j), i, j + 1)
  {
    var t := Swapped(s, i, j);
    assert t[..i] == s[..i] && t[j + 1..] == s[j + 1..];
    if i < j {
      assert s[i..j + 1] == [s[i]] + s[i + 1..j] + [s[j]];
      assert t[i..j + 1] == [s[j]] + s[i + 1..j] + [s[i]];
    } else {
      assert t == s;
    }
  }

  // ----- the sort -----

  /** `set2` for exchanged values */
  method Swap<T>(a: array<T>, i: int, j: int)
    requires 0 <= i < a.Length && 0 <= j < a.Length
    modifies a
    ensures a[..] == Swapped(old(a[..]), i, j)
  {
    a[i], a[j] := a[j], a[i];
  }

  ghost predicate SortedRange<T(!new)>(lt: Compare<T>, s: seq<T>, l: int, u: int)
    requires 0 <= l && u < |s|
  {
    forall p, q | l <= p < q <= u :: Le(lt, s[p], s[q])
  }

  /** All pairs of places that are not both between l and u are in order. */
  ghost predicate SortedAround<T(!new)>(lt: Compare<T>, s: seq<T>, l0: int, u0: int, l: int, u: int)
    requires 0 <= l0 && u0 < |s|
  {
    forall p, q | l0 <= p < q <= u0 && (p < l || q > u) :: Le(lt, s[p], s[q])
  }

  /** Around pivot x: what is up to i is not greater, what is from j on is not less. */
  ghost predicate Split<T(!new)>(lt: Compare<T>, s: seq<T>, l: int, i: int, j: int, u: int, x: T)
    requires 0 <= l && u < |s|
  {
    && (forall k | l <= k <= i && k <= u :: Le(lt, s[k], x))
    && (forall k | j <= k <= u && k >= l :: Le(lt, x, s[k]))
  }

  /** Only the elements at l, i and u may have changed. */
  ghost predicate OthersStay<T>(s: seq<T>, t: seq<T>, l: int, i: int, u: int) {
    |t| == |s| && forall k | 0 <= k < |s| && k != l && k != i && k != u :: t[k] == s[k]
  }

  lemma OthersStayThen<T>(s: seq<T>, t: seq<T>, v: seq<T>, l: int, i: int, u: int)
    requires OthersStay(s, t, l, i, u) && OthersStay(t, v, l, i, u)
    ensures OthersStay(s, v, l, i, u)
  {
  }

  /** The median of three: afterwards the first element is not greater than the middle one, and that not greater than
      the last; no other element moves. */
  method MedianOfThree<T(!new)>(a: array<T>, lt: Compare<T>, l: int, u: int, calls0: nat)
    returns (calls: nat)
    requires 0 <= l < u < a.Length
    modifies a
    ensures Rearranged(old(a[..]), a[..], l, u + 1) && OthersStay(old(a[..]), a[..], l, (l + u) / 2, u)
    ensures Order(lt) ==> Le(lt, a[l], a[u])
    ensures Order(lt) && u - l >= 2 ==> Le(lt, a[l], a[(l + u) / 2]) && Le(lt, a[(l + u) / 2], a[u])
    ensures u - l >= 2 ==> Noted(lt, a[l], a[(l + u) / 2])
  {
    hide Rearranged, Order, Swapped, Le, OthersStay, Noted;
    ghost var s := a[..];
    calls := calls0 + 1;
    EndsOrdered(lt, calls0, s, l, u);
    if lt(calls0, a[u], a[l]) {
      Swap(a, l, u);
    }
    if u - l == 1 {
      return;
    }
    ghost var t := a[..];
    var i := (l + u) / 2;
    MiddleOrdered(lt, calls, t, l, i, u);
    calls := calls + 1;
    if lt(calls - 1, a[i], a[l]) {
      Swap(a, i, l);
    } else {
      calls := calls + 1;
      if lt(calls - 1, a[u], a[i]) {
        Swap(a, i, u);
      }
    }
    RearrangedThen(s, t, a[..], l, u + 1);
    OthersStayThen(s, t, a[..], l, i, u);
  }

  lemma EndsOrdered<T(!new)>(lt: Compare<T>, k: nat, s: seq<T>, l: int, u: int)
    requires 0 <= l < u < |s|
    ensures var t := if lt(k, s[u], s[l]) then Swapped(s, l, u) else s;
      && |t| == |s| && Rearranged(s, t, l, u + 1) && OthersStay(s, t, l, (l + u) / 2, u)
      && (Order(lt) ==> Le(lt, t[l], t[u])) && Noted(lt, t[l], t[u])
  {
    hide Rearranged, Order, Noted;
    NotedNow(lt, k, s[u], s[l]);
    OrderLess(lt, k, s[u], s[l]);
    RearrangedSame(s, l, u + 1);
    SwapRearranges(s, l, u, l, u + 1);
  }

  lemma MiddleOrdered<T(!new)>(lt: Compare<T>, k: nat, s: seq<T>, l: int, i: int, u: int)
    requires 0 <= l < i < u < |s|
    ensures var t :=
        if lt(k, s[i], s[l]) then Swapped(s, i, l) else if lt(k + 1, s[u], s[i]) then Swapped(s, i, u) else s;
      && |t| == |s| && Rearranged(s, t, l, u + 1) && OthersStay(s, t, l, i, u)
      && (Order(lt) && Le(lt, s[l], s[u]) ==> Le(lt, t[l], t[u]) && Le(lt, t[l], t[i]) && Le(lt, t[i], t[u]))
      && (Noted(lt, s[l], s[u]) ==> Noted(lt, t[l], t[i]))
  {
    hide Rearranged, Order, Le, Noted;
    NotedNow(lt, k, s[i], s[l]);
    OrderLess(lt, k, s[i], s[l]);
    OrderLess(lt, k + 1, s[u], s[i]);
    OrderThen(lt, s[i], s[l], s[u]);
    OrderThen(lt, s[l], s[i], s[u]);
    RearrangedSame(s, l, u + 1);
    SwapRearranges(s, i, l, l, u + 1);
    SwapRearranges(s, i, u, l, u + 1);
  }

  lemma OrderLess<T(!new)>(lt: Compare<T>, k: nat, x: T, y: T)
    ensures Order(lt) ==> if lt(k, x, y) then Le(lt, x, y) else Le(lt, y, x)
  {
  }

  lemma OrderThen<T(!new)>(lt: Compare<T>, x: T, y: T, z: T)
    ensures Order(lt) && Le(lt, x, y) && Le(lt, y, z) ==> Le(lt, x, z)
  {
  }

  /** The partition of the range between l and u around the pivot, which is at u - 1. */
  method Partition<T(!new)>(a: array<T>, lt: Compare<T>, l: int, u: int, calls0: nat)
    returns (i: int, calls: nat, ok: bool)
    requires 0 <= l && l + 3 <= u < a.Length && Noted(lt, a[l], a[u - 1])
    modifies a
    ensures Rearranged(old(a[..]), a[..], l, u + 1)
    ensures if ok then l < i <= u else Contradicts(lt)
    ensures Order(lt) && old(Le(lt, a[l], a[u - 1]) && Le(lt, a[u - 1], a[u])) ==>
      ok && i < u && Split(lt, a[..], l, i, i, u, a[i])
  {
    hide Rearranged, Order, Swapped, Split, Le, Noted, Contradicts;
    ghost var s := a[..];
    var x := a[u - 1];
    calls, ok := calls0, true;
    i := l;
    var j := u - 1;
    ghost var good := Order(lt) && Le(lt, a[l], x) && Le(lt, x, a[u]);
    RearrangedSame(s, l, u + 1);
    SplitStart(lt, s, l, u);
    while true
      invariant l <= i <= j <= u - 1 && l < j && i < u - 1 && Rearranged(s, a[..], l, u + 1) && a[u - 1] == x
      invariant Noted(lt, a[l], x)
      invariant good ==> Order(lt) && Split(lt, a[..], l, i, j, u, x)
      decreases j - i
    {
      ghost var t := a[..];
      i, j, calls, ok := ScanBoth(a, lt, l, u, i, j, x, calls);
      if !ok {
        return;
      }
      if j < i {
        break;
      }
      SwapSplit(lt, t, l, i, j, u, x);
      Swap(a, i, j);
      RearrangedThen(s, t, a[..], l, u + 1);
    }
    ghost var t := a[..];
    SplitEnd(lt, t, l, i, j, u);
    Swap(a, u - 1, i);
    RearrangedThen(s, t, a[..], l, u + 1);
  }

  lemma SplitStart<T(!new)>(lt: Compare<T>, s: seq<T>, l: int, u: int)
    requires 0 <= l && l + 3 <= u < |s|
    ensures Order(lt) && Le(lt, s[l], s[u - 1]) && Le(lt, s[u - 1], s[u]) ==> Split(lt, s, l, l, u - 1, u, s[u - 1])
  {
    hide Order;
    OrderLess(lt, 0, s[u - 1], s[u - 1]);
  }

  lemma SwapSplit<T(!new)>(lt: Compare<T>, s: seq<T>, l: int, i: int, j: int, u: int, x: T)
    requires 0 <= l < i <= j < u - 1 && u < |s|
    ensures var t := Swapped(s, i, j);
      && |t| == |s| && Rearranged(s, t, l, u + 1) && t[u - 1] == s[u - 1] && t[l] == s[l]
      && (Split(lt, s, l, i - 1, j + 1, u, x) && Le(lt, x, s[i]) && Le(lt, s[j], x) ==> Split(lt, t, l, i, j, u, x))
  {
    hide Rearranged, Le;
    SwapRearranges(s, i, j, l, u + 1);
  }

  lemma SplitEnd<T(!new)>(lt: Compare<T>, s: seq<T>, l: int, i: int, j: int, u: int)
    requires 0 <= l < i <= u < |s| && j < i && l + 3 <= u
    ensures var t := Swapped(s, u - 1, i);
      && |t| == |s| && Rearranged(s, t, l, u + 1)
      && (Order(lt) && i < u && Split(lt, s, l, i - 1, j + 1, u, s[u - 1]) && Le(lt, s[u - 1], s[i]) ==>
        Split(lt, t, l, i, i, u, t[i]))
  {
    hide Rearranged, Order;
    SwapRearranges(s, u - 1, i, l, u + 1);
    OrderLess(lt, 0, s[u - 1], s[u - 1]);
  }

  /** The two inner loops: up to the next element that is not less than the pivot, and down to the next one that is not
      greater. */
  method ScanBoth<T(!new)>(a: array<T>, lt: Compare<T>, l: int, u: int, i0: int, j0: int, x: T, calls0: nat)
    returns (i: int, j: int, calls: nat, ok: bool)
    requires 0 <= l <= i0 <= j0 < u < a.Length && l < j0 && i0 < u - 1 && a[u - 1] == x
    requires Noted(lt, a[l], x)
    ensures if ok then i0 < i <= u && l <= j < j0 else Contradicts(lt)
    ensures Order(lt) && Split(lt, a[..], l, i0, j0, u, x) ==>
      ok && i < u && Split(lt, a[..], l, i - 1, j + 1, u, x) && Le(lt, x, a[i]) && Le(lt, a[j], x)
  {
    hide Order, Split, Le, Noted, Contradicts;
    ghost var good := Order(lt) && Split(lt, a[..], l, i0, j0, u, x);
    calls, ok := calls0 + 1, true;
    i, j := i0 + 1, j0;
    while lt(calls - 1, a[i], x)
      invariant i0 < i <= u && calls > 0 && (i == u ==> Contradicts(lt))
      invariant good ==> i < u && Split(lt, a[..], l, i - 1, j0, u, x)
      decreases u - i
    {
      if i >= u {
        ok := false;
        return;
      }
      PivotStops(lt, calls - 1, x, i, u, a[i]);
      if i == u - 1 {
        NotedNow(lt, calls - 1, x, x);
        Contradicted(lt, calls - 1, x, x);
      }
      SplitUp(lt, calls - 1, a[..], l, i, j0, u, x);
      i := i + 1;
      calls := calls + 1;
    }
    OrderLess(lt, calls - 1, a[i], x);
    j := j - 1;
    calls := calls + 1;
    while lt(calls - 1, x, a[j])
      invariant l <= j < j0 && calls > 0
      invariant good ==> Split(lt, a[..], l, i - 1, j + 1, u, x)
      decreases j - l
    {
      FirstStops(lt, a[..], l, i - 1, j + 1, u, x, calls - 1);
      if j <= l {
        Contradicted(lt, calls - 1, a[l], x);
        ok := false;
        return;
      }
      SplitDown(lt, calls - 1, a[..], l, i - 1, j, u, x);
      j := j - 1;
      calls := calls + 1;
    }
    OrderLess(lt, calls - 1, x, a[j]);
  }

  lemma SplitUp<T(!new)>(lt: Compare<T>, k: nat, s: seq<T>, l: int, i: int, j: int, u: int, x: T)
    requires 0 <= l <= i <= u < |s| && lt(k, s[i], x)
    ensures Order(lt) && Split(lt, s, l, i - 1, j, u, x) ==> Split(lt, s, l, i, j, u, x)
  {
    hide Order;
    OrderLess(lt, k, s[i], x);
  }

  lemma SplitDown<T(!new)>(lt: Compare<T>, k: nat, s: seq<T>, l: int, i: int, j: int, u: int, x: T)
    requires 0 <= l <= j <= u < |s| && lt(k, x, s[j])
    ensures Order(lt) && Split(lt, s, l, i, j + 1, u, x) ==> Split(lt, s, l, i, j, u, x)
  {
    hide Order;
    OrderLess(lt, k, x, s[j]);
  }


  /** The pivot itself stops the way up before the end of the range. */
  lemma PivotStops<T(!new)>(lt: Compare<T>, k: nat, x: T, i: int, u: int, y: T)
    requires lt(k, y, x) && i <= u
    ensures Order(lt) && (i == u - 1 ==> y == x) ==> i != u - 1
  {
  }

  /** The first element stops the way down. */
  lemma FirstStops<T(!new)>(lt: Compare<T>, s: seq<T>, l: int, i: int, j: int, u: int, x: T, k: nat)
    requires 0 <= l <= i && l <= u < |s|
    ensures Order(lt) && Split(lt, s, l, i, j, u, x) ==> !lt(k, x, s[l])
  {
  }

  // ----- putting the parts together -----

  /** The place i, with everything before it not greater and everything behind it not less. */
  ghost predicate InPlace<T(!new)>(lt: Compare<T>, s: seq<T>, l: int, i: int, u: int)
    requires 0 <= l <= i <= u < |s|
  {
    Split(lt, s, l, i, i, u, s[i])
  }

  /** Rearranging one side leaves i in place. */
  lemma SideRearranged<T(!new)>(lt: Compare<T>, s: seq<T>, t: seq<T>, l: int, i: int, u: int, a: int, b: int)
    requires 0 <= l <= i <= u < |s| && l <= a <= b <= u + 1
    requires InPlace(lt, s, l, i, u) && Rearranged(s, t, a, b)
    requires b <= i || a > i
    ensures |t| == |s| && InPlace(lt, t, l, i, u) && t[i] == s[i]
  {
    hide Rearranged, Le;
    Outside(s, t, a, b);
    forall k | l <= k <= u
      ensures k <= i ==> Le(lt, t[k], t[i])
      ensures k >= i ==> Le(lt, t[i], t[k])
    {
      if a <= k < b {
        var j := ComesFrom(s, t, a, b, k);
      }
    }
  }

  /** Rearranging the part that is still to be sorted leaves the order around it as it was. */
  lemma AroundRearranged<T(!new)>(lt: Compare<T>, s: seq<T>, t: seq<T>, l0: int, u0: int, l: int, u: int)
    requires 0 <= l0 <= l <= u + 1 && u <= u0 < |s| && Rearranged(s, t, l, u + 1)
    ensures |t| == |s| && (SortedAround(lt, s, l0, u0, l, u) ==> SortedAround(lt, t, l0, u0, l, u))
  {
    hide Rearranged, Le;
    Outside(s, t, l, u + 1);
    if SortedAround(lt, s, l0, u0, l, u) {
      forall p, q | l0 <= p < q <= u0 && (p < l || q > u)
        ensures Le(lt, t[p], t[q])
      {
        if l <= p <= u {
          var j := ComesFrom(s, t, l, u + 1, p);
        } else if l <= q <= u {
          var j := ComesFrom(s, t, l, u + 1, q);
        }
      }
    }
  }

  /** When the elements up to i are sorted, and i is in place, only those behind it remain. */
  lemma LeftDone<T(!new)>(lt: Compare<T>, s: seq<T>, l0: int, u0: int, l: int, i: int, u: int)
    requires 0 <= l0 <= l <= i <= u <= u0 < |s| && Order(lt)
    requires SortedAround(lt, s, l0, u0, l, u) && InPlace(lt, s, l, i, u) && SortedRange(lt, s, l, i - 1)
    ensures SortedAround(lt, s, l0, u0, i + 1, u)
  {
    hide Order, Le;
    forall p, q | l0 <= p < q <= u0 && (p < i + 1 || q > u)
      ensures Le(lt, s[p], s[q])
    {
      if l <= p <= i && q <= u {
        OrderThen(lt, s[p], s[i], s[q]);
      }
    }
  }

  lemma RightDone<T(!new)>(lt: Compare<T>, s: seq<T>, l0: int, u0: int, l: int, i: int, u: int)
    requires 0 <= l0 <= l <= i <= u <= u0 < |s| && Order(lt)
    requires SortedAround(lt, s, l0, u0, l, u) && InPlace(lt, s, l, i, u) && SortedRange(lt, s, i + 1, u)
    ensures SortedAround(lt, s, l0, u0, l, i - 1)
  {
    hide Order, Le;
    forall p, q | l0 <= p < q <= u0 && (p < l || q > i - 1)
      ensures Le(lt, s[p], s[q])
    {
      if p >= l && i <= q <= u {
        OrderThen(lt, s[p], s[i], s[q]);
      }
    }
  }

  /** One turn of the loop in `auxsort`: a range of up to three elements is sorted, a longer one is partitioned at i. */
  method Turn<T(!new)>(a: array<T>, lt: Compare<T>, l: int, u: int, calls0: nat)
    returns (i: int, calls: nat, ok: bool)
    requires 0 <= l < u < a.Length
    modifies a
    ensures Rearranged(old(a[..]), a[..], l, u + 1) && if ok then l <= i <= u else Contradicts(lt)
    ensures Order(lt) ==> ok && if u - l <= 2 then SortedRange(lt, a[..], l, u) else Split(lt, a[..], l, i, i, u, a[i])
  {
    hide Rearranged, Order, Le, Split, SortedRange, Swapped, Noted, Contradicts;
    ghost var s := a[..];
    ok, i := true, (l + u) / 2;
    calls := MedianOfThree(a, lt, l, u, calls0);
    if u - l <= 2 {
      FewSorted(lt, a[..], l, u);
      return;
    }
    ghost var t := a[..];
    MiddleAside(t, l, u);
    Swap(a, i, u - 1);
    RearrangedThen(s, t, a[..], l, u + 1);
    t := a[..];
    i, calls, ok := Partition(a, lt, l, u, calls);
    RearrangedThen(s, t, a[..], l, u + 1);
  }

  /** `auxsort`, for the elements from l to u. For any comparison the elements of the range are rearranged and no others
      touched; for a strict weak order they come out sorted and the sort never gives up. Each recursive call has one
      level less, so the recursion is at most logarithmically deep. */
  method AuxSort<T(!new)>(a: array<T>, lt: Compare<T>, l0: int, u0: int, calls0: nat, ghost levels: nat)
    returns (calls: nat, ok: bool)
    requires 0 <= l0 && l0 <= u0 + 1 <= a.Length && u0 + 1 - l0 < Pow2(levels)
    modifies a
    decreases levels
    ensures Rearranged(old(a[..]), a[..], l0, u0 + 1)
    ensures Order(lt) ==> ok && SortedRange(lt, a[..], l0, u0)
    ensures !ok ==> Contradicts(lt)
  {
    hide Rearranged, Order, Le, Pow2, Split, SortedRange, SortedAround, Contradicts;
    ghost var s := a[..];
    var l, u := l0, u0;
    calls, ok := calls0, true;
    RearrangedSame(s, l0, u0 + 1);
    AroundStart(lt, s, l0, u0);
    while l < u
      invariant l0 <= l <= u + 1 && u <= u0 && ok
      invariant Rearranged(s, a[..], l0, u0 + 1)
      invariant Order(lt) ==> SortedAround(lt, a[..], l0, u0, l, u)
      decreases u - l
    {
      ghost var t := a[..];
      var i;
      i, calls, ok := Turn(a, lt, l, u, calls);
      RearrangedWithin(s, t, a[..], l0, u0 + 1, l, u + 1);
      if !ok {
        return;
      }
      AroundRearranged(lt, t, a[..], l0, u0, l, u);
      if u - l <= 2 {
        WholeSorted(lt, a[..], l0, u0, l, u);
        l := u;
        break;
      }
      t := a[..];
      if i - l < u - i {
        Half(levels, i - l, u0 + 1 - l0);
        calls, ok := AuxSort(a, lt, l, i - 1, calls, levels - 1);
        RearrangedWithin(s, t, a[..], l0, u0 + 1, l, i);
        LeftSorted(lt, t, a[..], l0, u0, l, i, u);
        l := i + 1;
      } else {
        Half(levels, u - i, u0 + 1 - l0);
        calls, ok := AuxSort(a, lt, i + 1, u, calls, levels - 1);
        RearrangedWithin(s, t, a[..], l0, u0 + 1, i + 1, u + 1);
        RightSorted(lt, t, a[..], l0, u0, l, i, u);
        u := i - 1;
      }
      if !ok {
        return;
      }
    }
    AroundEnd(lt, a[..], l0, u0, l, u);
  }

  /** `table.sort`: the table is rearranged, whatever the comparison does; a strict weak order sorts it; the error is
      raised only for a comparison that contradicts itself. The levels are the number of binary digits of its length. */
  method Sort<T(!new)>(a: array<T>, lt: Compare<T>) returns (ok: bool)
    modifies a
    ensures multiset(a[..]) == multiset(old(a[..]))
    ensures Order(lt) ==> ok && forall p, q | 0 <= p < q < a.Length :: !lt(0, a[q], a[p])
    ensures !ok ==> Contradicts(lt)
  {
    hide Order, Pow2, Contradicts;
    var calls;
    calls, ok := AuxSort(a, lt, 0, a.Length - 1, 0, Digits(a.Length));
    assert a[0..a.Length] == a[..] && old(a[0..a.Length]) == old(a[..]);
  }

  /** The number of binary digits of n. */
  ghost function Digits(n: nat): (d: nat)
    ensures n < Pow2(d) && (n > 0 ==> d > 0 && Pow2(d - 1) <= n)
  {
    if n == 0 then 0 else Digits(n / 2) + 1
  }

  lemma WholeSorted<T(!new)>(lt: Compare<T>, s: seq<T>, l0: int, u0: int, l: int, u: int)
    requires 0 <= l0 <= l < u <= u0 < |s|
    ensures SortedAround(lt, s, l0, u0, l, u) && SortedRange(lt, s, l, u) ==> SortedAround(lt, s, l0, u0, u, u)
  {
    hide Le;
  }

  lemma AroundStart<T(!new)>(lt: Compare<T>, s: seq<T>, l: int, u: int)
    requires 0 <= l <= u + 1 <= |s|
    ensures SortedAround(lt, s, l, u, l, u)
  {
  }

  lemma AroundEnd<T(!new)>(lt: Compare<T>, s: seq<T>, l0: int, u0: int, l: int, u: int)
    requires 0 <= l0 && u0 < |s| && u <= l
    ensures SortedAround(lt, s, l0, u0, l, u) ==> SortedRange(lt, s, l0, u0)
  {
  }

  lemma RearrangedWithin<T>(s: seq<T>, t: seq<T>, v: seq<T>, l0: int, u0: int, l: int, u: int)
    requires 0 <= l0 <= l <= u <= u0 <= |s| && Rearranged(s, t, l0, u0) && |t| == |s| && Rearranged(t, v, l, u)
    ensures Rearranged(s, v, l0, u0)
  {
    hide Rearranged;
    RearrangedPart(t, v, l0, u0, l, u);
    RearrangedThen(s, t, v, l0, u0);
  }

  /** Two or three elements are sorted by the median of three alone. */
  lemma FewSorted<T(!new)>(lt: Compare<T>, s: seq<T>, l: int, u: int)
    requires 0 <= l < u < |s| && u - l <= 2
    ensures Le(lt, s[l], s[u]) && (u - l == 2 ==> Le(lt, s[l], s[(l + u) / 2]) && Le(lt, s[(l + u) / 2], s[u])) ==>
      SortedRange(lt, s, l, u)
  {
    hide Le;
    assert u - l == 2 ==> (l + u) / 2 == l + 1;
  }

  /** The pivot goes to the last place but one. */
  lemma MiddleAside<T>(s: seq<T>, l: int, u: int)
    requires 0 <= l && l + 3 <= u < |s|
    ensures var i := (l + u) / 2; var t := Swapped(s, i, u - 1);
      && l < i < u && |t| == |s| && Rearranged(s, t, l, u + 1) && t[l] == s[l] && t[u] == s[u] && t[u - 1] == s[i]
  {
    hide Rearranged;
    SwapRearranges(s, (l + u) / 2, u - 1, l, u + 1);
  }

  lemma LeftSorted<T(!new)>(lt: Compare<T>, s: seq<T>, t: seq<T>, l0: int, u0: int, l: int, i: int, u: int)
    requires 0 <= l0 <= l <= i <= u <= u0 < |s| && Rearranged(s, t, l, i) && |t| == |s|
    ensures Order(lt) && SortedAround(lt, s, l0, u0, l, u) && Split(lt, s, l, i, i, u, s[i]) ==>
      (SortedRange(lt, t, l, i - 1) ==> SortedAround(lt, t, l0, u0, i + 1, u))
  {
    hide Rearranged, Order, Le, SortedAround, SortedRange, Split;
    RearrangedPart(s, t, l, u + 1, l, i);
    AroundRearranged(lt, s, t, l0, u0, l, u);
    if Order(lt) && SortedAround(lt, s, l0, u0, l, u) && Split(lt, s, l, i, i, u, s[i]) &&
      SortedRange(lt, t, l, i - 1) {
      SideRearranged(lt, s, t, l, i, u, l, i);
      LeftDone(lt, t, l0, u0, l, i, u);
    }
  }

  lemma RightSorted<T(!new)>(lt: Compare<T>, s: seq<T>, t: seq<T>, l0: int, u0: int, l: int, i: int, u: int)
    requires 0 <= l0 <= l <= i <= u <= u0 < |s| && Rearranged(s, t, i + 1, u + 1) && |t| == |s|
    ensures Order(lt) && SortedAround(lt, s, l0, u0, l, u) && Split(lt, s, l, i, i, u, s[i]) ==>
      (SortedRange(lt, t, i + 1, u) ==> SortedAround(lt, t, l0, u0, l, i - 1))
  {
    hide Rearranged, Order, Le, SortedAround, SortedRange, Split;
    RearrangedPart(s, t, l, u + 1, i + 1, u + 1);
    AroundRearranged(lt, s, t, l0, u0, l, u);
    if Order(lt) && SortedAround(lt, s, l0, u0, l, u) && Split(lt, s, l, i, i, u, s[i]) &&
      SortedRange(lt, t, i + 1, u) {
      SideRearranged(lt, s, t, l, i, u, i + 1, u + 1);
      RightDone(lt, t, l0, u0, l, i, u);
    }
  }

  /** Less than half of the elements leave at least one level less. */
  lemma Half(levels: nat, part: int, whole: int)
    requires 0 <= part && 2 * part < whole < Pow2(levels)
    ensures levels > 0 && part < Pow2(levels - 1)
  {
  }
}
