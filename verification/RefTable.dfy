/** `luaL_ref` and `luaL_unref`: a table that hands out integers for values, with a list of free ones inside it. */
module RefTable {
  import opened Common

  /** A Lua value: a number, which is what the list of free references is made of, or anything else but nil. */
  datatype Value = Number(n: nat) | Other(id: nat)

  const REFNIL := -1

  ghost predicate LinkAt(t: map<int, Value>, free: seq<nat>, i: nat)
    requires i < |free|
  {
    free[i] > 0 && if i + 1 < |free| then free[i] in t && t[free[i]] == Number(free[i + 1]) else free[i] !in t
  }

  /** The free references are different ones and linked from field 0 on; the last one is missing. */
  ghost predicate Chain(t: map<int, Value>, free: seq<nat>) {
    && (if free == [] then 0 !in t else 0 in t && t[0] == Number(free[0]))
    && (forall i | 0 <= i < |free| :: LinkAt(t, free, i))
    && (forall i, j | 0 <= i < j < |free| :: free[i] != free[j])
  }

  /** Field i gets what field j has, which may be nothing. */
  function Copied(t: map<int, Value>, i: int, j: int): map<int, Value> {
    if j in t then t[i := t[j]] else t - {i}
  }

  lemma ChainStart(t: map<int, Value>, free: seq<nat>)
    requires Chain(t, free)
    ensures if free == [] then 0 !in t else free[0] > 0 && 0 in t && t[0] == Number(free[0])
  {
    if free != [] {
      assert LinkAt(t, free, 0);
    }
  }

  /** The first reference leaves the list. */
  lemma ChainRest(t: map<int, Value>, free: seq<nat>, v: Value)
    requires Chain(t, free) && free != []
    ensures Chain(Copied(t, 0, free[0])[free[0] := v], free[1..])
    ensures forall x :: x in free <==> x == free[0] || x in free[1..]
    ensures free[0] !in free[1..]
  {
    var rest, u := free[1..], Copied(t, 0, free[0])[free[0] := v];
    assert free == [free[0]] + rest;
    assert LinkAt(t, free, 0);
    forall i | 0 <= i < |rest|
      ensures LinkAt(u, rest, i)
    {
      assert rest[i] == free[i + 1] && LinkAt(t, free, i + 1);
    }
  }

  /** A reference joins the list in front. */
  lemma ChainMore(t: map<int, Value>, free: seq<nat>, x: nat)
    requires Chain(t, free) && x > 0 && x !in free
    ensures Chain(Copied(t, x, 0)[0 := Number(x)], [x] + free)
  {
    var more, u := [x] + free, Copied(t, x, 0)[0 := Number(x)];
    forall i | 0 < i < |more|
      ensures LinkAt(u, more, i)
    {
      assert more[i] == free[i - 1] && LinkAt(t, free, i - 1);
    }
  }

  class Table {
    var t: map<int, Value>
    ghost var free: seq<nat>
    ghost var size: nat

    /** What field i has as an integer; a missing one gives 0. */
    function ToInteger(i: int): nat
      reads this
    {
      if i in t && t[i].Number? then t[i].n else 0
    }

    ghost predicate Valid()
      reads this
    {
      && (forall i: int | i in t :: 0 <= i <= size)
      && (forall i: int | 0 < i <= size && i !in free :: i in t)
      && (forall x | x in free :: 0 < x <= size)
      && Chain(t, free)
    }

    /** The references that are in use, and their values. */
    ghost function Live(): map<nat, Value>
      reads this
    {
      map i: nat | i in t.Keys && i > 0 && i !in free :: t[i]
    }

    constructor ()
      ensures Valid() && Live() == map[]
    {
      t, free, size := map[], [], 0;
    }

    /** `lua_objlen`, for a table with all fields from 1 to some size */
    method ObjLen() returns (n: nat)
      requires Valid() && free == []
      ensures n == size
    {
      n := 0;
      while n + 1 in t
        invariant n <= size
        decreases size - n
      {
        n := n + 1;
      }
    }

    /** `lua_rawgeti` and `lua_rawseti`: field i gets what field j has, which may be nothing. */
    method CopyField(i: int, j: int)
      modifies this`t
      ensures t == Copied(old(t), i, j)
    {
      t := if j in t then t[i := t[j]] else t - {i};
    }

    /** `luaL_ref`; None is nil */
    method Ref(v: Option<Value>) returns (ref: int)
      requires Valid()
      modifies this
      ensures Valid()
      ensures v.None? ==> ref == REFNIL && Live() == old(Live())
      ensures v.Some? ==> ref > 0 && ref !in old(Live()) && Live() == old(Live())[ref := v.value]
    {
      if v.None? {
        return REFNIL;
      }
      if ToInteger(0) != 0 {
        ref := Reuse(v.value);
      } else {
        ref := Extend(v.value);
      }
    }

    /** The first free reference leaves the list. */
    method Reuse(v: Value) returns (ref: nat)
      requires Valid() && ToInteger(0) != 0
      modifies this
      ensures Valid() && ref > 0 && ref !in old(Live()) && Live() == old(Live())[ref := v]
    {
      hide Chain;
      ghost var was := Live();
      ChainStart(t, free);
      ref := ToInteger(0);
      ChainRest(t, free, v);
      CopyField(0, ref);
      free := free[1..];
      t := t[ref := v];
      assert Live() == was[ref := v];
    }

    /** The table grows by one reference. */
    method Extend(v: Value) returns (ref: nat)
      requires Valid() && ToInteger(0) == 0
      modifies this
      ensures Valid() && ref > 0 && ref !in old(Live()) && Live() == old(Live())[ref := v]
    {
      ghost var was := Live();
      ChainStart(t, free);
      ref := ObjLen();
      ref := ref + 1;
      size := ref;
      t := t[ref := v];
      assert Live() == was[ref := v];
    }

    /** `luaL_unref`, for a reference in use or a negative one, which is ignored */
    method Unref(ref: int)
      requires Valid() && (ref in Live() || ref < 0)
      modifies this
      ensures Valid() && Live() == old(Live()) - {ref}
    {
      if ref >= 0 {
        hide Chain;
        ghost var was := Live();
        ChainMore(t, free, ref);
        CopyField(ref, 0);
        t := t[0 := Number(ref)];
        free := [ref] + free;
        assert Live() == was - {ref};
      }
    }
  }
}
