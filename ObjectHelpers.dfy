/**
  `flattenObject` and `unflattenObject`: between nested objects and one-level objects
  whose keys are dotted paths.
 */
module ObjectHelpers {
  import opened Wrappers
  import opened Strings
  import opened Json
  import opened ObjectValue

  /** The `result` object that `flattenObject` and all its recursive calls write into. */
  class Accumulator {
    var fields: seq<(string, Json)>

    constructor ()
      ensures fields == []
    {
      fields := [];
    }
  }

  /*
    Flattening
   */

  /**
    The properties `flattenObject(ob, prefix, result)` leaves in a result that held `acc`;
    the prefix "" stands for the default `false`, which it equals in every test.
   */
  function Flat(ob: Json, prefix: string, acc: seq<(string, Json)>): seq<(string, Json)>
    decreases ob, 1
  {
    if prefix != "" && ob.Obj? && ob.fields == [] then Put(acc, prefix, Obj(ob.isArray, []))
    else if ob.Obj? then FlatFrom(ob, 0, if prefix != "" then prefix + "." else "", acc)
    else acc
  }

  /** The `for…in` loop of `flattenObject` from the `i`-th property on, under the prefix `p`. */
  function FlatFrom(ob: Json, i: nat, p: string, acc: seq<(string, Json)>): seq<(string, Json)>
    requires ob.Obj? && i <= |ob.fields|
    decreases ob, 0, |ob.fields| - i
  {
    if i == |ob.fields| then acc
    else
      var k, v := ob.fields[i].0, ob.fields[i].1;
      assert ob.fields[i] in ob.fields;
      FlatFrom(ob, i + 1, p, if v.Obj? then Flat(v, p + k, acc) else Put(acc, p + k, v))
  }

  /**
    `flattenObject(ob, prefix, result)`: a non-empty prefix and an empty object store the
    prefix with an empty object or array; otherwise each property is written under
    `prefix.key`, and each property that is an object (`null` is not) is flattened in turn.
   */
  method FlattenObject(ob: Json, prefix: string, result: Accumulator)
    modifies result
    ensures result.fields == Flat(ob, prefix, old(result.fields))
    decreases ob
  {
    if prefix != "" && ob.Obj? && |ob.fields| == 0 {
      result.fields := Put(result.fields, prefix, Obj(ob.isArray, []));
      return;
    }
    if !ob.Obj? {
      return;
    }
    var p := if prefix != "" then prefix + "." else "";
    ghost var acc0 := result.fields;
    for i := 0 to |ob.fields|
      invariant FlatFrom(ob, i, p, result.fields) == Flat(ob, prefix, acc0)
    {
      var k, v := ob.fields[i].0, ob.fields[i].1;
      assert ob.fields[i] in ob.fields;
      if v.Obj? {
        FlattenObject(v, p + k, result);
      } else {
        result.fields := Put(result.fields, p + k, v);
      }
    }
  }

  /** `flattenObject(ob)`: a fresh result and no prefix. */
  method Flatten(ob: Json) returns (r: seq<(string, Json)>)
    ensures r == Flat(ob, "", [])
  {
    var result := new Accumulator();
    FlattenObject(ob, "", result);
    r := result.fields;
  }

  /*
    The leaves of an object, as a reference for what flattening produces
   */

  /** A value flattening stores as it is: a non-object, `null` included, or an empty object or array. */
  predicate IsLeaf(v: Json) {
    !v.Obj? || v.fields == []
  }

  /** Every key of every nested object is non-empty. */
  predicate KeysNonEmpty(v: Json)
    decreases v
  {
    v.Obj? ==> forall i :: 0 <= i < |v.fields| ==> v.fields[i].0 != "" && KeysNonEmpty(v.fields[i].1)
  }

  /**
    Objects that flattening and unflattening carry over intact: keys unique, non-empty and
    free of dots, and each nested non-empty object an array exactly when its first key
    is numeric, since that is the container `unflattenObject` creates for it.
   */
  predicate Plain(v: Json)
    decreases v
  {
    v.Obj? ==>
      && UniqueKeys(v.fields)
      && forall i :: 0 <= i < |v.fields| ==>
        && v.fields[i].0 != "" && '.' !in v.fields[i].0
        && Plain(v.fields[i].1)
        && (v.fields[i].1.Obj? && v.fields[i].1.fields != [] ==> v.fields[i].1.isArray == Numeric(v.fields[i].1.fields[0].0))
  }

  /** Every key of every nested object is free of `[`. */
  predicate BracketFreeKeys(v: Json)
    decreases v
  {
    v.Obj? ==> forall i :: 0 <= i < |v.fields| ==> '[' !in v.fields[i].0 && BracketFreeKeys(v.fields[i].1)
  }

  /** Each path of `ls` extended in front by `k`. */
  function Under(k: string, ls: seq<(seq<string>, Json)>): (r: seq<(seq<string>, Json)>)
    ensures |r| == |ls| && forall j :: 0 <= j < |ls| ==> r[j] == ([k] + ls[j].0, ls[j].1)
  {
    seq(|ls|, j requires 0 <= j < |ls| => ([k] + ls[j].0, ls[j].1))
  }

  /**
    The leaves under the properties from the `i`-th on, each with the key path that leads
    to it, in enumeration order.
   */
  function LeavesFrom(ob: Json, i: nat): (r: seq<(seq<string>, Json)>)
    requires ob.Obj? && i <= |ob.fields|
    ensures forall j :: 0 <= j < |r| ==> |r[j].0| >= 1 && IsLeaf(r[j].1)
    ensures i < |ob.fields| ==> |r| >= 1 && r[0].0[0] == ob.fields[i].0
    decreases ob, |ob.fields| - i, 1
  {
    if i == |ob.fields| then [] else HeadLeaves(ob, i) + LeavesFrom(ob, i + 1)
  }

  /**
    The leaves under the `i`-th property: the property itself when its value is a leaf,
    else the leaves of the nested object under its key.
   */
  function HeadLeaves(ob: Json, i: nat): (r: seq<(seq<string>, Json)>)
    requires ob.Obj? && i < |ob.fields|
    ensures |r| >= 1
    ensures forall j :: 0 <= j < |r| ==> |r[j].0| >= 1 && r[j].0[0] == ob.fields[i].0 && IsLeaf(r[j].1)
    decreases ob, |ob.fields| - i, 0
  {
    var k, v := ob.fields[i].0, ob.fields[i].1;
    assert ob.fields[i] in ob.fields;
    if v.Obj? && v.fields != [] then Under(k, LeavesFrom(v, 0)) else [([k], v)]
  }

  /** The `j`-th leaf from the `i`-th property on. */
  lemma LeafAt(ob: Json, i: nat, j: nat)
    requires ob.Obj? && i < |ob.fields| && j < |LeavesFrom(ob, i)|
    ensures LeavesFrom(ob, i)[j] == if j < |HeadLeaves(ob, i)| then HeadLeaves(ob, i)[j] else LeavesFrom(ob, i + 1)[j - |HeadLeaves(ob, i)|]
  {
  }

  function Leaves(ob: Json): seq<(seq<string>, Json)> {
    if ob.Obj? then LeavesFrom(ob, 0) else []
  }

  /** The leaves as properties: the path joined with dots, after `p`. */
  function Keyed(p: string, ls: seq<(seq<string>, Json)>): (r: seq<(string, Json)>)
    ensures |r| == |ls| && forall j :: 0 <= j < |ls| ==> r[j] == (p + Join(ls[j].0, '.'), ls[j].1)
  {
    seq(|ls|, j requires 0 <= j < |ls| => (p + Join(ls[j].0, '.'), ls[j].1))
  }

  /** The assignments `o[k] = v` for the properties `es`, in order. */
  function PutAll(acc: seq<(string, Json)>, es: seq<(string, Json)>): seq<(string, Json)>
    decreases |es|
  {
    if es == [] then acc else PutAll(Put(acc, es[0].0, es[0].1), es[1..])
  }

  lemma {:induction false} PutAllAppend(acc: seq<(string, Json)>, a: seq<(string, Json)>, b: seq<(string, Json)>)
    ensures PutAll(acc, a + b) == PutAll(PutAll(acc, a), b)
    decreases |a|
  {
    if a == [] {
      assert a + b == b;
    } else {
      assert (a + b)[0] == a[0] && (a + b)[1..] == a[1..] + b;
      PutAllAppend(Put(acc, a[0].0, a[0].1), a[1..], b);
    }
  }

  lemma JoinCons(k: string, q: seq<string>)
    requires |q| >= 1
    ensures Join([k] + q, '.') == k + "." + Join(q, '.')
  {
    assert ([k] + q)[1..] == q;
  }

  lemma KeyedUnder(p: string, k: string, ls: seq<(seq<string>, Json)>)
    requires forall j :: 0 <= j < |ls| ==> |ls[j].0| >= 1
    ensures Keyed(p, Under(k, ls)) == Keyed(p + k + ".", ls)
  {
    forall j | 0 <= j < |ls| ensures Keyed(p, Under(k, ls))[j] == Keyed(p + k + ".", ls)[j] {
      JoinCons(k, ls[j].0);
      assert Under(k, ls)[j].0 == [k] + ls[j].0;
      assert p + (k + "." + Join(ls[j].0, '.')) == p + k + "." + Join(ls[j].0, '.');
    }
  }

  lemma KeyedAppend(p: string, a: seq<(seq<string>, Json)>, b: seq<(seq<string>, Json)>)
    ensures Keyed(p, a + b) == Keyed(p, a) + Keyed(p, b)
  {
  }

  /** The loop from the `i`-th property assigns the keyed leaves from there, in order. */
  lemma {:induction false} FlatFromLeaves(ob: Json, i: nat, p: string, acc: seq<(string, Json)>)
    requires ob.Obj? && i <= |ob.fields| && KeysNonEmpty(ob)
    ensures FlatFrom(ob, i, p, acc) == PutAll(acc, Keyed(p, LeavesFrom(ob, i)))
    decreases ob, |ob.fields| - i
  {
    if i < |ob.fields| {
      var k, v := ob.fields[i].0, ob.fields[i].1;
      assert ob.fields[i] in ob.fields;
      var rest: seq<(seq<string>, Json)> := LeavesFrom(ob, i + 1);
      if v.Obj? && v.fields != [] {
        var lv := LeavesFrom(v, 0);
        FlatFromLeaves(v, 0, p + k + ".", acc);
        var acc1 := Flat(v, p + k, acc);
        assert acc1 == PutAll(acc, Keyed(p + k + ".", lv));
        FlatFromLeaves(ob, i + 1, p, acc1);
        KeyedUnder(p, k, lv);
        KeyedAppend(p, Under(k, lv), rest);
        PutAllAppend(acc, Keyed(p, Under(k, lv)), Keyed(p, rest));
      } else {
        var acc1 := Put(acc, p + k, v);
        assert v.Obj? ==> v == Obj(v.isArray, []);
        FlatFromLeaves(ob, i + 1, p, acc1);
        assert Keyed(p, [([k], v)]) == [(p + k, v)];
        KeyedAppend(p, [([k], v)], rest);
        PutAllAppend(acc, [(p + k, v)], Keyed(p, rest));
      }
    }
  }

  /**
    Flattening assigns, in enumeration order, each leaf under its dotted key path: a
    non-object value (`null` included) or a nested empty object or array; an empty object
    at the top adds nothing.
   */
  lemma FlattenLeaves(ob: Json, acc: seq<(string, Json)>)
    requires KeysNonEmpty(ob)
    ensures Flat(ob, "", acc) == PutAll(acc, Keyed("", Leaves(ob)))
  {
    if ob.Obj? {
      FlatFromLeaves(ob, 0, "", acc);
    }
  }

  /** No two listed leaves share a path. */
  predicate PathsDistinct(ls: seq<(seq<string>, Json)>) {
    forall a, b :: 0 <= a < b < |ls| ==> ls[a].0 != ls[b].0
  }

  lemma {:induction false} PlainKeysNonEmpty(v: Json)
    requires Plain(v)
    ensures KeysNonEmpty(v)
    decreases v
  {
    if v.Obj? {
      forall i | 0 <= i < |v.fields| ensures KeysNonEmpty(v.fields[i].1) {
        assert v.fields[i] in v.fields;
        PlainKeysNonEmpty(v.fields[i].1);
      }
    }
  }

  /** The leaf paths from the `i`-th property on start with none of the earlier properties' keys. */
  lemma {:induction false} LeavesHeads(ob: Json, i: nat)
    requires ob.Obj? && i <= |ob.fields| && UniqueKeys(ob.fields)
    ensures forall j, m :: 0 <= j < |LeavesFrom(ob, i)| && 0 <= m < i ==> LeavesFrom(ob, i)[j].0[0] != ob.fields[m].0
    decreases |ob.fields| - i
  {
    if i < |ob.fields| {
      var k, v := ob.fields[i].0, ob.fields[i].1;
      LeavesHeads(ob, i + 1);
      var head: seq<(seq<string>, Json)> := HeadLeaves(ob, i);
      var rest: seq<(seq<string>, Json)> := LeavesFrom(ob, i + 1);
      forall j, m | 0 <= j < |head + rest| && 0 <= m < i ensures (head + rest)[j].0[0] != ob.fields[m].0 {
        if j < |head| {
          assert head[j].0[0] == k;
          assert ob.fields[m].0 != ob.fields[i].0;
        } else {
          assert (head + rest)[j] == rest[j - |head|];
        }
      }
    }
  }

  /** Every key along every listed path is non-empty and free of dots. */
  predicate PartsPlain(ls: seq<(seq<string>, Json)>) {
    forall j, t :: 0 <= j < |ls| && 0 <= t < |ls[j].0| ==> ls[j].0[t] != "" && '.' !in ls[j].0[t]
  }

  lemma UnderPlain(k: string, ls: seq<(seq<string>, Json)>)
    requires k != "" && '.' !in k && PartsPlain(ls)
    ensures PartsPlain(Under(k, ls))
  {
    var u := Under(k, ls);
    forall j, t | 0 <= j < |u| && 0 <= t < |u[j].0| ensures u[j].0[t] != "" && '.' !in u[j].0[t] {
      if t > 0 {
        assert u[j].0[t] == ls[j].0[t - 1];
      }
    }
  }

  lemma AppendPlain(a: seq<(seq<string>, Json)>, b: seq<(seq<string>, Json)>)
    requires PartsPlain(a) && PartsPlain(b)
    ensures PartsPlain(a + b)
  {
    forall j | |a| <= j < |a + b| ensures (a + b)[j] == b[j - |a|] {
    }
  }

  /** The keys along every leaf path of a plain object are non-empty and free of dots. */
  lemma {:induction false} LeavesKeysPlain(ob: Json, i: nat)
    requires ob.Obj? && i <= |ob.fields| && Plain(ob)
    ensures PartsPlain(LeavesFrom(ob, i))
    decreases ob, |ob.fields| - i
  {
    if i < |ob.fields| {
      var k, v := ob.fields[i].0, ob.fields[i].1;
      assert ob.fields[i] in ob.fields;
      LeavesKeysPlain(ob, i + 1);
      if v.Obj? && v.fields != [] {
        LeavesKeysPlain(v, 0);
        UnderPlain(k, LeavesFrom(v, 0));
        AppendPlain(Under(k, LeavesFrom(v, 0)), LeavesFrom(ob, i + 1));
      } else {
        AppendPlain([([k], v)], LeavesFrom(ob, i + 1));
      }
    }
  }

  lemma UnderDistinct(k: string, ls: seq<(seq<string>, Json)>)
    requires PathsDistinct(ls)
    ensures PathsDistinct(Under(k, ls))
  {
    var u := Under(k, ls);
    forall a, b | 0 <= a < b < |u| ensures u[a].0 != u[b].0 {
      assert u[a].0[1..] == ls[a].0 && u[b].0[1..] == ls[b].0;
    }
  }

  /** Paths that all start with `k`, followed by distinct paths that none start with `k`. */
  lemma AppendDistinct(k: string, a: seq<(seq<string>, Json)>, b: seq<(seq<string>, Json)>)
    requires PathsDistinct(a) && PathsDistinct(b)
    requires forall j :: 0 <= j < |a| ==> |a[j].0| >= 1 && a[j].0[0] == k
    requires forall j :: 0 <= j < |b| ==> |b[j].0| >= 1 && b[j].0[0] != k
    ensures PathsDistinct(a + b)
  {
    var all := a + b;
    forall x, y | 0 <= x < y < |all| ensures all[x].0 != all[y].0 {
      if y >= |a| {
        assert all[y] == b[y - |a|];
        if x >= |a| {
          assert all[x] == b[x - |a|];
        }
      }
    }
  }

  /** The leaf paths of an object with unique keys at every level are distinct. */
  lemma {:induction false} LeavesDistinct(ob: Json, i: nat)
    requires ob.Obj? && i <= |ob.fields| && Plain(ob)
    ensures PathsDistinct(LeavesFrom(ob, i))
    decreases ob, |ob.fields| - i
  {
    if i < |ob.fields| {
      var k, v := ob.fields[i].0, ob.fields[i].1;
      assert ob.fields[i] in ob.fields;
      LeavesDistinct(ob, i + 1);
      LeavesHeads(ob, i + 1);
      var head: seq<(seq<string>, Json)> := HeadLeaves(ob, i);
      if v.Obj? && v.fields != [] {
        LeavesDistinct(v, 0);
        UnderDistinct(k, LeavesFrom(v, 0));
      }
      AppendDistinct(k, head, LeavesFrom(ob, i + 1));
    }
  }

  /** Distinct leaf paths of dot-free keys give distinct dotted keys. */
  lemma KeyedDistinct(ls: seq<(seq<string>, Json)>)
    requires PathsDistinct(ls)
    requires forall j :: 0 <= j < |ls| ==> |ls[j].0| >= 1
    requires PartsPlain(ls)
    ensures UniqueKeys(Keyed("", ls))
  {
    var r := Keyed("", ls);
    forall a, b | 0 <= a < b < |r| ensures r[a].0 != r[b].0 {
      SplitJoin(ls[a].0, '.');
      SplitJoin(ls[b].0, '.');
      assert r[a].0 == Join(ls[a].0, '.') && r[b].0 == Join(ls[b].0, '.');
    }
  }

  lemma FreshAfterFirst(acc: seq<(string, Json)>, es: seq<(string, Json)>)
    requires es != [] && UniqueKeys(es)
    requires forall j :: 0 <= j < |es| ==> Lookup(acc, es[j].0).None?
    ensures UniqueKeys(es[1..])
    ensures forall j :: 0 <= j < |es| - 1 ==> Lookup(acc + [es[0]], es[1..][j].0).None?
  {
    var tail := es[1..];
    forall j | 0 <= j < |tail| ensures Lookup(acc + [es[0]], tail[j].0).None? {
      assert tail[j] == es[j + 1];
      LookupAppend(acc, es[0], tail[j].0);
    }
    forall a, b | 0 <= a < b < |tail| ensures tail[a].0 != tail[b].0 {
      assert tail[a] == es[a + 1] && tail[b] == es[b + 1];
    }
  }

  /** Assigning properties that are all new appends them in order. */
  lemma {:induction false} PutAllFresh(acc: seq<(string, Json)>, es: seq<(string, Json)>)
    requires UniqueKeys(es)
    requires forall j :: 0 <= j < |es| ==> Lookup(acc, es[j].0).None?
    ensures PutAll(acc, es) == acc + es
    decreases |es|
  {
    if es != [] {
      PutNew(acc, es[0].0, es[0].1);
      var acc1 := acc + [es[0]];
      var tail := es[1..];
      FreshAfterFirst(acc, es);
      PutAllFresh(acc1, tail);
      assert acc1 + tail == acc + es;
    }
  }

  /**
    For a plain object, flattening gives exactly its leaves, each once, under the key
    path joined with dots, in enumeration order.
   */
  lemma FlattenExact(ob: Json)
    requires Plain(ob)
    ensures Flat(ob, "", []) == Keyed("", Leaves(ob))
  {
    PlainKeysNonEmpty(ob);
    FlattenLeaves(ob, []);
    if ob.Obj? {
      LeavesDistinct(ob, 0);
      LeavesKeysPlain(ob, 0);
      KeyedDistinct(Leaves(ob));
    }
    PutAllFresh([], Keyed("", Leaves(ob)));
  }

  lemma {:induction false} LeavesBracketFree(ob: Json, i: nat)
    requires ob.Obj? && i <= |ob.fields| && BracketFreeKeys(ob)
    ensures forall j, t :: 0 <= j < |LeavesFrom(ob, i)| && 0 <= t < |LeavesFrom(ob, i)[j].0| ==> '[' !in LeavesFrom(ob, i)[j].0[t]
    decreases ob, |ob.fields| - i
  {
    if i < |ob.fields| {
      var k, v := ob.fields[i].0, ob.fields[i].1;
      assert ob.fields[i] in ob.fields;
      LeavesBracketFree(ob, i + 1);
      if v.Obj? && v.fields != [] {
        var lv := LeavesFrom(v, 0);
        LeavesBracketFree(v, 0);
        var head := Under(k, lv);
        assert LeavesFrom(ob, i) == head + LeavesFrom(ob, i + 1);
        forall j, t | 0 <= j < |head| && 0 <= t < |head[j].0| ensures '[' !in head[j].0[t] {
          if t > 0 {
            assert head[j].0[t] == lv[j].0[t - 1];
          }
        }
      }
    }
  }

  /** Walking a plain object along a leaf's path finds that leaf (`def` for `undefined`). */
  lemma {:induction false} WalkLeaf(ob: Json, i: nat, j: nat, def: Json)
    requires ob.Obj? && i <= |ob.fields| && Plain(ob) && j < |LeavesFrom(ob, i)|
    ensures var leaf := LeavesFrom(ob, i)[j];
      Walk(ob, leaf.0, def) == Got(if leaf.1.Undefined? then def else leaf.1)
    decreases ob, |ob.fields| - i, 1
  {
    LeafAt(ob, i, j);
    if j < |HeadLeaves(ob, i)| {
      WalkHead(ob, i, j, def);
    } else {
      WalkLeaf(ob, i + 1, j - |HeadLeaves(ob, i)|, def);
    }
  }

  /** The leaves under the `i`-th property are found through that property. */
  lemma {:induction false} WalkHead(ob: Json, i: nat, j: nat, def: Json)
    requires ob.Obj? && i < |ob.fields| && Plain(ob) && j < |HeadLeaves(ob, i)|
    ensures var leaf := HeadLeaves(ob, i)[j];
      Walk(ob, leaf.0, def) == Got(if leaf.1.Undefined? then def else leaf.1)
    decreases ob, |ob.fields| - i, 0
  {
    var k, v := ob.fields[i].0, ob.fields[i].1;
    assert ob.fields[i] in ob.fields;
    LookupListed(ob.fields, i);
    assert Get(ob, k) == v;
    if v.Obj? && v.fields != [] {
      var lv := LeavesFrom(v, 0);
      WalkLeaf(v, 0, j, def);
      assert Under(k, lv)[j].0[1..] == lv[j].0;
    } else {
      assert [k][1..] == [];
    }
  }

  /**
    Every property of a flattened plain object, looked up by `GetObjectValue` in the
    original object with its key as the path, gives back its value (`def` for `undefined`).
   */
  lemma FlattenThenGet(ob: Json, def: Json)
    requires ob.Obj? && Plain(ob) && BracketFreeKeys(ob)
    ensures forall j :: 0 <= j < |Flat(ob, "", [])| ==>
      var e := Flat(ob, "", []);
      Walk(ob, PathOf(Dotted(e[j].0)), def) == Got(if e[j].1.Undefined? then def else e[j].1)
  {
    FlattenExact(ob);
    var ls := Leaves(ob);
    LeavesKeysPlain(ob, 0);
    LeavesBracketFree(ob, 0);
    forall j | 0 <= j < |ls|
      ensures Walk(ob, PathOf(Dotted(Keyed("", ls)[j].0)), def) == Got(if ls[j].1.Undefined? then def else ls[j].1)
    {
      assert Keyed("", ls)[j].0 == Join(ls[j].0, '.');
      DottedRoundTrip(ls[j].0);
      WalkLeaf(ob, 0, j, def);
    }
  }

  /*
    Unflattening
   */

  /**
    `!isNaN(Number(s))` for a key segment; the model counts the non-empty strings of
    decimal digits as numeric.
   */
  predicate Numeric(s: string) {
    s != "" && forall i :: 0 <= i < |s| ==> '0' <= s[i] <= '9'
  }

  /**
    The `reduce` of `unflattenObject` over the segments `keys`, starting from `r`: a
    truthy property is stepped into as it is; a falsy or missing one is replaced by the
    value for the last segment, else by a new array when the next segment is numeric and
    a new object otherwise.
   */
  function Insert(r: Json, keys: seq<string>, leaf: Json): (r': Json)
    requires keys != []
    ensures r.Obj? ==> r'.Obj? && r'.isArray == r.isArray
    ensures !r.Obj? ==> r' == r
    ensures forall k :: k != keys[0] ==> Get(r', k) == Get(r, k)
    decreases |keys|
  {
    var e := keys[0];
    var cur := Get(r, e);
    if Truthy(cur) then
      if |keys| == 1 then r else Set(r, e, Insert(cur, keys[1..], leaf))
    else if |keys| == 1 then Set(r, e, leaf)
    else Set(r, e, Insert(Obj(Numeric(keys[1]), []), keys[1..], leaf))
  }

  /** The loop of `unflattenObject` from `r` over the properties `es`, in order. */
  function InsertAll(r: Json, es: seq<(string, Json)>): Json
    decreases |es|
  {
    if es == [] then r else InsertAll(Insert(r, Split(es[0].0, '.'), es[0].1), es[1..])
  }

  /** What `unflattenObject(ob)` returns. */
  function Unflatten(ob: seq<(string, Json)>): Json {
    InsertAll(Obj(false, []), ob)
  }

  /** `unflattenObject`: every key is split on dots and its value inserted along the segments. */
  method UnflattenObject(ob: seq<(string, Json)>) returns (result: Json)
    ensures result == Unflatten(ob)
  {
    result := Obj(false, []);
    for n := 0 to |ob|
      invariant InsertAll(result, ob[n..]) == Unflatten(ob)
    {
      var keys := Split(ob[n].0, '.');
      assert ob[n..][1..] == ob[n + 1..];
      result := Insert(result, keys, ob[n].1);
    }
    assert ob[|ob|..] == [];
  }

  /**
    The last segment receives the value unless its property is already truthy; an earlier
    segment with no truthy property gets a fresh container, an array exactly when the next
    segment is numeric.
   */
  lemma InsertStep(r: Json, keys: seq<string>, leaf: Json)
    requires r.Obj? && keys != []
    ensures |keys| == 1 ==> Get(Insert(r, keys, leaf), keys[0]) == if Truthy(Get(r, keys[0])) then Get(r, keys[0]) else leaf
    ensures |keys| > 1 && !Truthy(Get(r, keys[0])) ==>
      Get(Insert(r, keys, leaf), keys[0]).Obj? && Get(Insert(r, keys, leaf), keys[0]).isArray == Numeric(keys[1])
  {
  }

  /**
    An existing container is reused, not replaced: it keeps its kind and every property
    other than the one the next segment names.
   */
  lemma InsertReuses(r: Json, keys: seq<string>, leaf: Json)
    requires r.Obj? && |keys| > 1 && Get(r, keys[0]).Obj?
    ensures var c, c' := Get(r, keys[0]), Get(Insert(r, keys, leaf), keys[0]);
      c'.Obj? && c'.isArray == c.isArray && forall k :: k != keys[1] ==> Get(c', k) == Get(c, k)
  {
  }

  /**
    Inserting along segments whose first property is falsy or missing leaves the value
    where `GetObjectValue` looks for it.
   */
  lemma {:induction false} InsertThenWalk(r: Json, keys: seq<string>, leaf: Json, def: Json)
    requires r.Obj? && keys != [] && !Truthy(Get(r, keys[0]))
    ensures Walk(Insert(r, keys, leaf), keys, def) == Got(if leaf.Undefined? then def else leaf)
    decreases |keys|
  {
    var r' := Insert(r, keys, leaf);
    if |keys| == 1 {
      assert Get(r', keys[0]) == leaf;
      assert keys[1..] == [];
    } else {
      var c := Obj(Numeric(keys[1]), []);
      InsertThenWalk(c, keys[1..], leaf, def);
      assert Get(r', keys[0]) == Insert(c, keys[1..], leaf);
    }
  }

  /** The inserts of leaves given by their paths. */
  function InsertPaths(r: Json, ls: seq<(seq<string>, Json)>): Json
    requires forall j :: 0 <= j < |ls| ==> |ls[j].0| >= 1
    decreases |ls|
  {
    if ls == [] then r else InsertPaths(Insert(r, ls[0].0, ls[0].1), ls[1..])
  }

  lemma {:induction false} InsertPathsAppend(r: Json, a: seq<(seq<string>, Json)>, b: seq<(seq<string>, Json)>)
    requires forall j :: 0 <= j < |a| ==> |a[j].0| >= 1
    requires forall j :: 0 <= j < |b| ==> |b[j].0| >= 1
    ensures InsertPaths(r, a + b) == InsertPaths(InsertPaths(r, a), b)
    decreases |a|
  {
    if a == [] {
      assert a + b == b;
    } else {
      assert (a + b)[0] == a[0] && (a + b)[1..] == a[1..] + b;
      InsertPathsAppend(Insert(r, a[0].0, a[0].1), a[1..], b);
    }
  }

  /** Splitting the dotted keys of leaves restores their paths. */
  lemma {:induction false} InsertAllKeyed(r: Json, ls: seq<(seq<string>, Json)>)
    requires forall j :: 0 <= j < |ls| ==> |ls[j].0| >= 1
    requires forall j, t :: 0 <= j < |ls| && 0 <= t < |ls[j].0| ==> '.' !in ls[j].0[t]
    ensures InsertAll(r, Keyed("", ls)) == InsertPaths(r, ls)
    decreases |ls|
  {
    if ls != [] {
      SplitJoin(ls[0].0, '.');
      assert Keyed("", ls)[0].0 == Join(ls[0].0, '.');
      assert Keyed("", ls)[1..] == Keyed("", ls[1..]);
      InsertAllKeyed(Insert(r, ls[0].0, ls[0].1), ls[1..]);
    }
  }

  lemma PutTwice(fs: seq<(string, Json)>, k: string, a: Json, b: Json)
    ensures Put(Put(fs, k, a), k, b) == Put(fs, k, b)
  {
  }

  lemma PutSame(fs: seq<(string, Json)>, k: string)
    requires Lookup(fs, k).Some?
    ensures Put(fs, k, Lookup(fs, k).value) == fs
  {
  }

  /** Inserting leaves under an existing object property inserts them into that object. */
  lemma {:induction false} InsertUnderExisting(c: Json, k: string, w: Json, ls: seq<(seq<string>, Json)>)
    requires c.Obj? && w.Obj? && Get(c, k) == w
    requires forall j :: 0 <= j < |ls| ==> |ls[j].0| >= 1
    ensures InsertPaths(c, Under(k, ls)) == Set(c, k, InsertPaths(w, ls))
    decreases |ls|
  {
    if ls == [] {
      PutSame(c.fields, k);
    } else {
      var p0, v0 := ls[0].0, ls[0].1;
      var u := Under(k, ls);
      assert u[0].0 == [k] + p0 && ([k] + p0)[1..] == p0;
      var w1 := Insert(w, p0, v0);
      var c1 := Set(c, k, w1);
      assert Insert(c, u[0].0, u[0].1) == c1;
      assert u[1..] == Under(k, ls[1..]);
      InsertUnderExisting(c1, k, w1, ls[1..]);
      PutTwice(c.fields, k, w1, InsertPaths(w1, ls[1..]));
    }
  }

  /** Inserting leaves under a missing property builds the container the first path asks for. */
  lemma InsertUnderFresh(c: Json, k: string, ls: seq<(seq<string>, Json)>)
    requires c.Obj? && Lookup(c.fields, k).None? && |ls| >= 1
    requires forall j :: 0 <= j < |ls| ==> |ls[j].0| >= 1
    ensures InsertPaths(c, Under(k, ls)) == Set(c, k, InsertPaths(Obj(Numeric(ls[0].0[0]), []), ls))
  {
    var p0, v0 := ls[0].0, ls[0].1;
    var u := Under(k, ls);
    assert u[0].0 == [k] + p0 && ([k] + p0)[1..] == p0;
    var w1 := Insert(Obj(Numeric(p0[0]), []), p0, v0);
    var c1 := Set(c, k, w1);
    assert Insert(c, u[0].0, u[0].1) == c1;
    assert u[1..] == Under(k, ls[1..]);
    InsertUnderExisting(c1, k, w1, ls[1..]);
    PutTwice(c.fields, k, w1, InsertPaths(w1, ls[1..]));
  }

  /** Inserting the leaves from the `i`-th property on into the object built so far completes it. */
  lemma {:induction false} RebuildFrom(v: Json, i: nat)
    requires v.Obj? && Plain(v) && i <= |v.fields|
    ensures InsertPaths(Obj(v.isArray, v.fields[..i]), LeavesFrom(v, i)) == v
    decreases v, |v.fields| - i
  {
    if i == |v.fields| {
      assert v.fields[..i] == v.fields;
    } else {
      var w := v.fields[i].1;
      assert v.fields[i] in v.fields;
      if w.Obj? && w.fields != [] {
        RebuildFrom(w, 0);
      }
      RebuildStep(v, i);
      RebuildFrom(v, i + 1);
    }
  }

  /** The leaves under the `i`-th property add that property to the object built so far. */
  lemma RebuildStep(v: Json, i: nat)
    requires v.Obj? && Plain(v) && i < |v.fields|
    requires var w := v.fields[i].1; w.Obj? && w.fields != [] ==> InsertPaths(Obj(w.isArray, []), LeavesFrom(w, 0)) == w
    ensures InsertPaths(Obj(v.isArray, v.fields[..i]), LeavesFrom(v, i))
         == InsertPaths(Obj(v.isArray, v.fields[..i + 1]), LeavesFrom(v, i + 1))
  {
    var c := Obj(v.isArray, v.fields[..i]);
    var k, w := v.fields[i].0, v.fields[i].1;
    var rest := LeavesFrom(v, i + 1);
    assert Lookup(c.fields, k).None? by {
      LookupFinds(c.fields, k);
      forall m | 0 <= m < i ensures c.fields[m].0 != k {
        assert c.fields[m] == v.fields[m];
      }
    }
    PutNew(c.fields, k, w);
    assert v.fields[..i] + [(k, w)] == v.fields[..i + 1];
    if w.Obj? && w.fields != [] {
      var lw := LeavesFrom(w, 0);
      InsertPathsAppend(c, Under(k, lw), rest);
      InsertUnderFresh(c, k, lw);
      assert Numeric(lw[0].0[0]) == w.isArray;
    } else {
      InsertPathsAppend(c, [([k], w)], rest);
      assert InsertPaths(c, [([k], w)]) == Insert(c, [k], w);
    }
  }

  /** Unflattening undoes flattening for a plain object (an object, not an array, at the top). */
  lemma UnflattenFlatten(ob: Json)
    requires ob.Obj? && !ob.isArray && Plain(ob)
    ensures Unflatten(Flat(ob, "", [])) == ob
  {
    FlattenExact(ob);
    LeavesKeysPlain(ob, 0);
    InsertAllKeyed(Obj(false, []), Leaves(ob));
    RebuildFrom(ob, 0);
    assert ob.fields[..0] == [];
  }
}
