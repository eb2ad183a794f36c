/**
  `GetObjectValue(obj, path, def)`: parses a dot/bracket path into keys and walks the
  object along them, answering `def` as soon as a step finds `undefined`.
 */
module ObjectValue {
  import opened Wrappers
  import opened Strings
  import opened Json

  /** The `path` argument: a string in dot/bracket notation, or a list of keys used as is. */
  datatype Path = Dotted(s: string) | KeyList(keys: seq<string>)

  /*
    The bracket pattern `\[([^}]+)\]` matched at position `q`: a `[`, then the longest
    run of characters other than `}` that still leaves a `]` to close it, then that `]`.
    The run may itself hold `[` and `]`, so it reaches the LAST `]` before the next `}`.
   */

  /** The end of the run of non-`}` characters that starts at `i`. */
  function RunEnd(s: string, i: nat): (r: nat)
    requires i <= |s|
    ensures i <= r <= |s|
    ensures forall j :: i <= j < r ==> s[j] != '}'
    ensures r < |s| ==> s[r] == '}'
    decreases |s| - i
  {
    if i == |s| || s[i] == '}' then i else RunEnd(s, i + 1)
  }

  /** The last `]` in `s[lo..hi]`, if any. */
  function LastClose(s: string, lo: nat, hi: nat): (r: Option<nat>)
    requires lo <= hi <= |s|
    ensures r.Some? ==> lo <= r.value < hi && s[r.value] == ']' && forall j :: r.value < j < hi ==> s[j] != ']'
    ensures r.None? ==> forall j :: lo <= j < hi ==> s[j] != ']'
    decreases hi - lo
  {
    if hi == lo then None
    else if s[hi - 1] == ']' then Some(hi - 1)
    else LastClose(s, lo, hi - 1)
  }

  /** The position of the closing `]` when the pattern matches at `q`. */
  function MatchAt(s: string, q: nat): (r: Option<nat>)
    requires q < |s|
    ensures r.Some? ==> s[q] == '[' && q + 2 <= r.value < |s| && s[r.value] == ']'
  {
    if s[q] != '[' then None
    else
      var end := RunEnd(s, q + 1);
      if end < q + 2 then None else LastClose(s, q + 2, end)
  }

  /** The leftmost match at or after `q`: its start and its closing `]`. */
  function FirstMatch(s: string, q: nat): (r: Option<(nat, nat)>)
    requires q <= |s|
    ensures r.Some? ==> q <= r.value.0 && r.value.0 < |s| && MatchAt(s, r.value.0) == Some(r.value.1)
    ensures r.Some? ==> forall j :: q <= j < r.value.0 ==> MatchAt(s, j).None?
    decreases |s| - q
  {
    if q == |s| then None
    else match MatchAt(s, q)
      case Some(c) => Some((q, c))
      case None => FirstMatch(s, q + 1)
  }

  /**
    `item.split(/\[([^}]+)\]/g)`: the text between matches, with each match's bracket
    contents in its place, the text after the last match closing the list.
   */
  function BracketSplit(s: string): (r: seq<string>)
    ensures |r| >= 1
    decreases |s|
  {
    match FirstMatch(s, 0)
    case None => [s]
    case Some((q, c)) => [s[..q], s[q + 1..c]] + BracketSplit(s[c + 1..])
  }

  /** The keys pushed for a list of split pieces: the non-empty ones, in order. */
  function Kept(keys: seq<string>): (r: seq<string>)
    ensures |r| <= |keys|
    ensures forall i :: 0 <= i < |r| ==> r[i] != ""
    ensures forall i :: 0 <= i < |r| ==> r[i] in keys
  {
    if keys == [] then []
    else
      var last := keys[|keys| - 1];
      Kept(keys[..|keys| - 1]) + (if last != "" then [last] else [])
  }

  /** The keys of the dot-separated items of a path, item by item. */
  function Segments(items: seq<string>): (r: seq<string>)
    ensures forall i :: 0 <= i < |r| ==> r[i] != ""
  {
    if items == [] then []
    else Segments(items[..|items| - 1]) + Kept(BracketSplit(items[|items| - 1]))
  }

  /** The key list `stringToPath` makes of a path. */
  function PathOf(path: Path): seq<string> {
    match path
    case Dotted(s) => Segments(Split(s, '.'))
    case KeyList(keys) => keys
  }

  /**
    `stringToPath`: a key list is returned as it is; a string is split on `.`, each item
    on the bracket pattern, and every non-empty piece is pushed in order.
   */
  method StringToPath(path: Path) returns (output: seq<string>)
    ensures output == PathOf(path)
  {
    if path.KeyList? {
      return path.keys;
    }
    output := [];
    var items := Split(path.s, '.');
    for index := 0 to |items|
      invariant output == Segments(items[..index])
    {
      var item := items[index];
      output := PushKeys(output, BracketSplit(item));
      assert items[..index + 1][..index] == items[..index];
    }
    assert items[..|items|] == items;
  }

  /** The inner loop of `stringToPath`: pushes the non-empty pieces of one item. */
  method PushKeys(before: seq<string>, keys: seq<string>) returns (output: seq<string>)
    ensures output == before + Kept(keys)
  {
    output := before;
    for k := 0 to |keys|
      invariant output == before + Kept(keys[..k])
    {
      var key := keys[k];
      assert keys[..k + 1][..k] == keys[..k];
      if |key| > 0 {
        output := output + [key];
      }
    }
    assert keys[..|keys|] == keys;
  }

  /** The keys parsed from a string are non-empty and free of dots. */
  lemma DottedKeys(s: string)
    ensures forall i :: 0 <= i < |PathOf(Dotted(s))| ==> PathOf(Dotted(s))[i] != "" && '.' !in PathOf(Dotted(s))[i]
  {
    SegmentsDotFree(Split(s, '.'));
  }

  /** Every piece of a bracket split is made of characters of the item. */
  lemma {:induction false} BracketSplitChars(s: string)
    ensures forall i, ch :: 0 <= i < |BracketSplit(s)| && ch in BracketSplit(s)[i] ==> ch in s
    decreases |s|
  {
    match FirstMatch(s, 0)
    case None =>
    case Some((q, c)) =>
      var rest := s[c + 1..];
      BracketSplitChars(rest);
      var r := BracketSplit(s);
      assert r == [s[..q], s[q + 1..c]] + BracketSplit(rest);
      forall i, ch | 0 <= i < |r| && ch in r[i] ensures ch in s {
        if i == 0 {
          assert ch in s[..q];
        } else if i == 1 {
          assert ch in s[q + 1..c];
        } else {
          assert r[i] == BracketSplit(rest)[i - 2];
          assert ch in rest;
        }
      }
  }

  /** The keys parsed from a dotted string never contain a dot. */
  lemma {:induction false} SegmentsDotFree(items: seq<string>)
    requires forall i :: 0 <= i < |items| ==> '.' !in items[i]
    ensures forall i :: 0 <= i < |Segments(items)| ==> '.' !in Segments(items)[i]
  {
    if items != [] {
      var init, last := items[..|items| - 1], items[|items| - 1];
      SegmentsDotFree(init);
      BracketSplitChars(last);
      var keys := BracketSplit(last);
      var r := Segments(items);
      assert r == Segments(init) + Kept(keys);
      forall i | 0 <= i < |r| ensures '.' !in r[i] {
        if i >= |Segments(init)| {
          var key := Kept(keys)[i - |Segments(init)|];
          assert key in keys;
          var j :| 0 <= j < |keys| && keys[j] == key;
          assert r[i] == key;
        }
      }
    }
  }

  /** An item without `[` holds no bracket group and stays whole. */
  lemma BracketFree(s: string)
    requires '[' !in s
    ensures BracketSplit(s) == [s]
  {
    NoMatchFrom(s, 0);
  }

  lemma {:induction false} NoMatchFrom(s: string, q: nat)
    requires q <= |s| && '[' !in s
    ensures FirstMatch(s, q).None?
    decreases |s| - q
  {
    if q < |s| {
      assert s[q] != '[';
      NoMatchFrom(s, q + 1);
    }
  }

  /**
    `name[inner]` splits into `name`, `inner` and the empty rest, where `inner` may itself
    hold brackets: the group runs to the last `]`, so `a[0][1]` gives the keys `a` and `0][1`.
   */
  lemma BracketGroup(name: string, inner: string)
    requires '[' !in name && inner != "" && '}' !in inner
    ensures BracketSplit(name + "[" + inner + "]") == [name, inner, ""]
  {
    var s := name + "[" + inner + "]";
    var q := |name|;
    assert s[q] == '[';
    assert forall j :: q + 1 <= j < |s| ==> s[j] != '}' by {
      forall j | q + 1 <= j < |s| ensures s[j] != '}' {
        if j < |s| - 1 {
          assert s[j] == inner[j - q - 1];
        }
      }
    }
    RunEndAll(s, q + 1);
    assert s[|s| - 1] == ']';
    assert MatchAt(s, q) == Some(|s| - 1);
    forall j | 0 <= j < q ensures MatchAt(s, j).None? {
      assert s[j] == name[j];
    }
    FirstMatchAfterMisses(s, 0, q);
    assert s[..q] == name;
    assert s[q + 1..|s| - 1] == inner;
    assert s[|s|..] == "";
    assert FirstMatch("", 0).None?;
  }

  lemma {:induction false} RunEndAll(s: string, i: nat)
    requires i <= |s| && forall j :: i <= j < |s| ==> s[j] != '}'
    ensures RunEnd(s, i) == |s|
    decreases |s| - i
  {
    if i < |s| {
      RunEndAll(s, i + 1);
    }
  }

  lemma {:induction false} FirstMatchAfterMisses(s: string, p: nat, q: nat)
    requires p <= q < |s| && MatchAt(s, q).Some?
    requires forall j :: p <= j < q ==> MatchAt(s, j).None?
    ensures FirstMatch(s, p) == Some((q, MatchAt(s, q).value))
    decreases q - p
  {
    if p < q {
      FirstMatchAfterMisses(s, p + 1, q);
    }
  }

  /** Items that are non-empty and free of `[` are themselves the keys. */
  lemma {:induction false} SegmentsPlain(items: seq<string>)
    requires forall i :: 0 <= i < |items| ==> items[i] != "" && '[' !in items[i]
    ensures Segments(items) == items
  {
    if items != [] {
      var init, last := items[..|items| - 1], items[|items| - 1];
      assert forall i :: 0 <= i < |init| ==> init[i] == items[i];
      SegmentsPlain(init);
      BracketFree(last);
      KeptSingle(last);
      assert Segments(items) == Segments(init) + Kept(BracketSplit(last));
      assert init + [last] == items;
    }
  }

  lemma KeptSingle(key: string)
    requires key != ""
    ensures Kept([key]) == [key]
  {
    assert [key][..0] == [];
  }

  /**
    Parsing inverts joining with dots: keys that are non-empty and hold neither `.` nor
    `[` come back from their dotted string unchanged (no keys give the empty string, which
    parses to no keys).
   */
  lemma DottedRoundTrip(keys: seq<string>)
    requires forall i :: 0 <= i < |keys| ==> keys[i] != "" && '.' !in keys[i] && '[' !in keys[i]
    ensures PathOf(Dotted(Join(keys, '.'))) == keys
  {
    if |keys| == 0 {
      assert Split("", '.') == [""];
    } else {
      SplitJoin(keys, '.');
      SegmentsPlain(keys);
    }
  }

  /** What `GetObjectValue` answers: a value, or the TypeError of reading a property of `undefined`/`null`. */
  datatype Got = Got(value: Json) | Threw

  /** The walk: the object itself for no keys, `def` once a step finds `undefined`. */
  function Walk(current: Json, keys: seq<string>, def: Json): (r: Got)
    ensures keys == [] ==> r == Got(current)
    ensures keys != [] && current.Obj? && Lookup(current.fields, keys[0]).None? ==> r == Got(def)
    ensures keys != [] && (current.Undefined? || current.Null?) ==> r == Threw
    decreases |keys|
  {
    if keys == [] then Got(current)
    else if current.Undefined? || current.Null? then Threw
    else
      var next := Get(current, keys[0]);
      if next.Undefined? then Got(def) else Walk(next, keys[1..], def)
  }

  /**
    `GetObjectValue`: parses the path, then steps into the current value key by key,
    returning `def` as soon as a step finds `undefined`, else the value reached.
   */
  method GetObjectValue(obj: Json, path: Path, def: Json) returns (r: Got)
    ensures r == Walk(obj, PathOf(path), def)
  {
    var keys := StringToPath(path);
    var current := obj;
    for i := 0 to |keys|
      invariant Walk(current, keys[i..], def) == Walk(obj, keys, def)
    {
      if current.Undefined? || current.Null? {
        return Threw;
      }
      var next := Get(current, keys[i]);
      if next.Undefined? {
        return Got(def);
      }
      assert keys[i..][1..] == keys[i + 1..];
      current := next;
    }
    assert keys[|keys|..] == [];
    r := Got(current);
  }

  /** Walking a key list that ends where a walk without it ended continues from there. */
  lemma {:induction false} WalkAppend(current: Json, p: seq<string>, q: seq<string>, def: Json, mid: Json)
    requires Walk(current, p, Undefined) == Got(mid) && !mid.Undefined?
    ensures Walk(current, p + q, def) == Walk(mid, q, def)
    decreases |p|
  {
    if p != [] {
      var next := Get(current, p[0]);
      assert (p + q)[1..] == p[1..] + q;
      WalkAppend(next, p[1..], q, def, mid);
    } else {
      assert p + q == q;
    }
  }
}
