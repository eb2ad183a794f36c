/**
  The JavaScript values the object helpers walk and build. An object is the list of its
  own enumerable properties in enumeration order; an array is an object with index keys.
 */
module Json {
  import opened Wrappers

  datatype Json =
    | Undefined
    | Null
    | Bool(b: bool)
    | Num(n: real)
    | Str(s: string)
    | Obj(isArray: bool, fields: seq<(string, Json)>)

  /** JavaScript truthiness (`NaN` is not a value of the model). */
  predicate Truthy(v: Json) {
    match v
    case Undefined => false
    case Null => false
    case Bool(b) => b
    case Num(n) => n != 0.0
    case Str(s) => s != ""
    case Obj(_, _) => true
  }

  /** No key occurs twice in a property list, as in every JavaScript object. */
  predicate UniqueKeys(fs: seq<(string, Json)>) {
    forall i, j :: 0 <= i < j < |fs| ==> fs[i].0 != fs[j].0
  }

  /** The value of own property `k`, if there is one. */
  function Lookup(fs: seq<(string, Json)>, k: string): Option<Json> {
    if fs == [] then None
    else if fs[0].0 == k then Some(fs[0].1)
    else Lookup(fs[1..], k)
  }

  /** A property is found exactly when some listed property has its key, and then with that property's value. */
  lemma {:induction false} LookupFinds(fs: seq<(string, Json)>, k: string)
    ensures Lookup(fs, k).Some? <==> exists i :: 0 <= i < |fs| && fs[i].0 == k
    ensures Lookup(fs, k).Some? ==> exists i :: 0 <= i < |fs| && fs[i] == (k, Lookup(fs, k).value)
  {
    if fs != [] && fs[0].0 != k {
      LookupFinds(fs[1..], k);
      assert forall i :: 0 <= i < |fs| - 1 ==> fs[1..][i] == fs[i + 1];
      if Lookup(fs, k).Some? {
        var i :| 0 <= i < |fs| - 1 && fs[1..][i] == (k, Lookup(fs, k).value);
        assert fs[i + 1] == (k, Lookup(fs, k).value);
      }
    }
  }

  lemma {:induction false} LookupAppend(fs: seq<(string, Json)>, e: (string, Json), k: string)
    ensures Lookup(fs + [e], k) == if Lookup(fs, k).Some? then Lookup(fs, k) else if e.0 == k then Some(e.1) else None
  {
    if fs == [] {
      assert fs + [e] == [e];
    } else {
      assert (fs + [e])[1..] == fs[1..] + [e];
      LookupAppend(fs[1..], e, k);
    }
  }

  /** In an object with unique keys, each listed property is the one `Lookup` finds. */
  lemma {:induction false} LookupListed(fs: seq<(string, Json)>, i: nat)
    requires UniqueKeys(fs) && i < |fs|
    ensures Lookup(fs, fs[i].0) == Some(fs[i].1)
  {
    if i > 0 {
      assert fs[0].0 != fs[i].0;
      assert UniqueKeys(fs[1..]) by {
        forall a, b | 0 <= a < b < |fs| - 1 ensures fs[1..][a].0 != fs[1..][b].0 {
          assert fs[1..][a] == fs[a + 1] && fs[1..][b] == fs[b + 1];
        }
      }
      LookupListed(fs[1..], i - 1);
      assert fs[1..][i - 1] == fs[i];
    }
  }

  /**
    `o[k] = v` on a property list: an existing property keeps its place and takes the
    new value, a new one is enumerated last.
   */
  function Put(fs: seq<(string, Json)>, k: string, v: Json): (r: seq<(string, Json)>)
    ensures Lookup(r, k) == Some(v)
    ensures forall k' :: k' != k ==> Lookup(r, k') == Lookup(fs, k')
  {
    if fs == [] then [(k, v)]
    else if fs[0].0 == k then [(k, v)] + fs[1..]
    else [fs[0]] + Put(fs[1..], k, v)
  }

  /** A new property is enumerated last. */
  lemma {:induction false} PutNew(fs: seq<(string, Json)>, k: string, v: Json)
    requires Lookup(fs, k).None?
    ensures Put(fs, k, v) == fs + [(k, v)]
  {
    if fs != [] {
      PutNew(fs[1..], k, v);
      assert fs == [fs[0]] + fs[1..];
    }
  }

  /** Assigning a property keeps the keys of an object unique. */
  lemma {:induction false} PutUnique(fs: seq<(string, Json)>, k: string, v: Json)
    requires UniqueKeys(fs)
    ensures UniqueKeys(Put(fs, k, v))
  {
    if fs != [] && fs[0].0 != k {
      var tail := fs[1..];
      assert UniqueKeys(tail) by {
        forall a, b | 0 <= a < b < |tail| ensures tail[a].0 != tail[b].0 {
          assert tail[a] == fs[a + 1] && tail[b] == fs[b + 1];
        }
      }
      PutUnique(tail, k, v);
      var t := Put(tail, k, v);
      var r := [fs[0]] + t;
      assert forall j :: 0 <= j < |tail| ==> tail[j] == fs[j + 1];
      LookupFinds(tail, fs[0].0);
      LookupFinds(t, fs[0].0);
      assert Lookup(tail, fs[0].0).None?;
      assert Lookup(t, fs[0].0).None?;
      forall a, b | 0 <= a < b < |r| ensures r[a].0 != r[b].0 {
        if a == 0 {
          assert r[b] == t[b - 1];
        } else {
          assert r[a] == t[a - 1] && r[b] == t[b - 1];
        }
      }
    }
  }

  /** `v[k]` for a value that is not `undefined` or `null`: own properties of objects only. */
  function Get(v: Json, k: string): Json {
    if v.Obj? then Lookup(v.fields, k).GetOr(Undefined) else Undefined
  }

  /** `v[k] = x`: an assignment to a primitive is dropped, as in sloppy-mode code. */
  function Set(v: Json, k: string, x: Json): (r: Json)
    ensures v.Obj? ==> r.Obj? && r.isArray == v.isArray && Get(r, k) == x
    ensures forall k' :: k' != k ==> Get(r, k') == Get(v, k')
    ensures !v.Obj? ==> r == v
  {
    if v.Obj? then Obj(v.isArray, Put(v.fields, k, x)) else v
  }
}
