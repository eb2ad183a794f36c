/**
  The Art-Net action buffer: a 512-slot channel buffer, a sparse table of pending
  per-channel actions (SET / FADETO), a connection flag and the frame staged on the
  sender. One call of `UpdateArtnetBuffer` is one tick of the scheduler.

  Values and steps are exact reals; the sender is reduced to the values prepared on it
  (`staged`), the set of keys whose `prepChannel` throws in a tick and a boolean outcome
  of `transmit()`; emitted events go to the ghost log `events`.
 */
module ActionBuffer {
  import opened Wrappers

  const ChannelCount: nat := 512
  const DefaultFadeTime: real := 250.0
  const DefaultFramesPerSec: real := 44.0

  datatype Kind = Set | FadeTo

  /**
    The object handed to `addAction`. `value == None` stands for a value that is not a
    number (`isNaN`); `action == ""` and `fadeTime == 0.0` stand for a missing field, which
    the source treats exactly like any other falsy one.
   */
  datatype Request = Request(channel: int, action: string, value: Option<real>, fadeTime: real)

  /** A pending action; `channel` is the external 1-based channel. */
  datatype Action = Action(channel: int, kind: Kind, value: real, fadeTime: real, step: real)

  datatype Cause = InvalidBufferShape | ValueOutOfRange | ConnectionFailure | PrepareFailure | TransmitFailure

  datatype Event =
    | BufferChanged(index: int)
    | ConnectionStateChanged(connected: bool)
    | Error(cause: Cause)

  /** Falsy fields (`""`, `0`) are the ones `defaultConfiguration` fills in. */
  datatype Config = Config(
    host: string, universe: int, port: int, refresh: int, framesPerSec: real,
    localInterface: string, subnet: int, net: int)

  /** The outcome of one tick on one channel: its new value and whether the action is finished. */
  datatype Resolution = Resolution(value: real, done: bool)

  // ---------------------------------------------------------------------------
  // Configuration

  /** `defaultConfiguration`: every falsy field receives its default, the others are kept. */
  function Defaulted(c: Config): (r: Config)
    ensures r.host != "" && r.port != 0 && r.refresh != 0 && r.framesPerSec != 0.0
    ensures r.localInterface != ""
    ensures c.host != "" ==> r.host == c.host
    ensures c.host == "" ==> r.host == "0.0.0.0"
    ensures c.port != 0 ==> r.port == c.port
    ensures c.port == 0 ==> r.port == 6454
    ensures c.refresh != 0 ==> r.refresh == c.refresh
    ensures c.refresh == 0 ==> r.refresh == 5000
    ensures c.framesPerSec != 0.0 ==> r.framesPerSec == c.framesPerSec
    ensures c.framesPerSec == 0.0 ==> r.framesPerSec == DefaultFramesPerSec
    ensures c.localInterface != "" ==> r.localInterface == c.localInterface
    ensures c.localInterface == "" ==> r.localInterface == "127.0.0.1"
    ensures r.universe == c.universe && r.subnet == c.subnet && r.net == c.net
  {
    Config(
      if c.host != "" then c.host else "0.0.0.0",
      if c.universe != 0 then c.universe else 0,
      if c.port != 0 then c.port else 6454,
      if c.refresh != 0 then c.refresh else 5000,
      if c.framesPerSec != 0.0 then c.framesPerSec else DefaultFramesPerSec,
      if c.localInterface != "" then c.localInterface else "127.0.0.1",
      if c.subnet != 0 then c.subnet else 0,
      if c.net != 0 then c.net else 0)
  }

  /** Applying the defaults a second time changes nothing. */
  lemma DefaultedIdempotent(c: Config)
    ensures Defaulted(Defaulted(c)) == Defaulted(c)
  {
  }

  /** The tick interval in milliseconds, `1000 / (framesPerSec || 44)`. */
  function IntervalFor(framesPerSec: real): (r: real)
    ensures framesPerSec != 0.0 ==> r * framesPerSec == 1000.0
    ensures framesPerSec == 0.0 ==> r * DefaultFramesPerSec == 1000.0
    ensures framesPerSec >= 0.0 ==> r > 0.0
  {
    1000.0 / (if framesPerSec != 0.0 then framesPerSec else DefaultFramesPerSec)
  }

  // ---------------------------------------------------------------------------
  // Admission of an action (`addAction`)

  /** ASCII upper-casing, standing in for `toUpperCase`. */
  function UpperChar(ch: char): (r: char)
    ensures 'a' <= ch <= 'z' ==> r as int == ch as int - 32
    ensures !('a' <= ch <= 'z') ==> r == ch
  {
    if 'a' <= ch <= 'z' then (ch as int - 32) as char else ch
  }

  function Upper(s: string): (r: string)
    ensures |r| == |s|
    ensures forall i :: 0 <= i < |s| ==> r[i] == UpperChar(s[i])
  {
    seq(|s|, i requires 0 <= i < |s| => UpperChar(s[i]))
  }

  /**
    The action kind a request selects: a missing action means SET, otherwise the
    upper-cased name must be SET or FADETO; any other name selects nothing.
   */
  function KindOf(action: string): (r: Option<Kind>)
    ensures r == Some(Set) <==> action == "" || Upper(action) == "SET"
    ensures r == Some(FadeTo) <==> action != "" && Upper(action) == "FADETO"
  {
    if action == "" then Some(Set)
    else if Upper(action) == "SET" then Some(Set)
    else if Upper(action) == "FADETO" then Some(FadeTo)
    else None
  }

  /** The kind is insensitive to case: the stored, already upper-cased name selects the same kind. */
  lemma {:induction false} KindOfUpper(action: string)
    ensures KindOf(Upper(action)) == KindOf(action)
  {
    assert Upper(Upper(action)) == Upper(action);
  }

  /**
    The admission guard as written: the source tests the already decremented index
    `channel - 1`, and rejects it when it is 0 (falsy) or negative, so external
    channel 1 is dropped together with 0 and the negatives. A value that is not a
    number is rejected too.
   */
  predicate Admitted(req: Request) {
    req.channel - 1 > 0 && req.value.Some?
  }

  /** The fade time a FADETO action gets: the requested one, or 250 ms when it is falsy. */
  function FadeTimeFor(req: Request): (r: real)
    ensures r != 0.0
    ensures req.fadeTime != 0.0 ==> r == req.fadeTime
  {
    if req.fadeTime != 0.0 then req.fadeTime else DefaultFadeTime
  }

  /**
    The action `addAction` stores for `req` when the channel currently holds `cur` and
    the tick interval is `interval`; `None` when nothing is stored.
   */
  function Admission(req: Request, cur: real, interval: real): (r: Option<Action>)
    ensures r.Some? <==> Admitted(req) && KindOf(req.action).Some?
    ensures r.Some? ==> r.value.channel == req.channel && r.value.value == req.value.value
    ensures r.Some? ==> r.value.kind == KindOf(req.action).value
    // SET: one step covers the whole distance
    ensures r.Some? && r.value.kind == Set ==> r.value.fadeTime == 0.0 && cur + r.value.step == r.value.value
    // FADETO: fadeTime / interval steps cover the whole distance
    ensures r.Some? && r.value.kind == FadeTo ==>
      r.value.fadeTime == FadeTimeFor(req) && r.value.step * r.value.fadeTime == (r.value.value - cur) * interval
  {
    if !Admitted(req) then None
    else
      var v := req.value.value;
      match KindOf(req.action)
      case None => None
      case Some(Set) => Some(Action(req.channel, Set, v, 0.0, v - cur))
      case Some(FadeTo) =>
        var ft := FadeTimeFor(req);
        Some(Action(req.channel, FadeTo, v, ft, (v - cur) / ft * interval))
  }

  /** A FADETO step points from the current value toward the target (positive fade time and interval). */
  lemma AdmissionStepTowardTarget(req: Request, cur: real, interval: real)
    requires interval > 0.0 && req.fadeTime >= 0.0
    requires Admission(req, cur, interval).Some?
    ensures var a := Admission(req, cur, interval).value;
      (a.step > 0.0 <==> a.value > cur) && (a.step < 0.0 <==> a.value < cur) && (a.step == 0.0 <==> a.value == cur)
  {
    var a := Admission(req, cur, interval).value;
    if a.kind == FadeTo {
      var ft := FadeTimeFor(req);
      assert ft > 0.0;
      assert a.step == (a.value - cur) / ft * interval;
      assert (a.value - cur) / ft > 0.0 <==> a.value > cur;
      assert (a.value - cur) / ft < 0.0 <==> a.value < cur;
    }
  }

  /** The table after `addAction(req)`: the admitted action replaces any earlier one for its index. */
  function AdmitInto(table: map<int, Action>, buf: seq<real>, interval: real, req: Request): (r: map<int, Action>)
    requires req.channel <= |buf|
    ensures !Admitted(req) || KindOf(req.action).None? ==> r == table
    ensures Admitted(req) && KindOf(req.action).Some? ==>
      r == table[req.channel - 1 := Admission(req, buf[req.channel - 1], interval).value]
  {
    if Admitted(req) then
      match Admission(req, buf[req.channel - 1], interval)
      case Some(a) => table[req.channel - 1 := a]
      case None => table
    else table
  }

  /** Two admissions for the same channel before a tick: only the second survives. */
  lemma AdmitReplaces(table: map<int, Action>, buf: seq<real>, interval: real, r1: Request, r2: Request)
    requires r1.channel == r2.channel <= |buf|
    requires Admitted(r2) && KindOf(r2.action).Some?
    ensures AdmitInto(AdmitInto(table, buf, interval, r1), buf, interval, r2)
         == table[r2.channel - 1 := Admission(r2, buf[r2.channel - 1], interval).value]
  {
  }

  /** The event `addAction` emits: `bufferChanged` with the 0-based index, whenever the guard passes. */
  function AdmissionEvents(req: Request): (r: seq<Event>)
    ensures |r| <= 1
    ensures r == [] <==> !Admitted(req)
    ensures r != [] ==> r[0] == BufferChanged(req.channel - 1) && r[0].index >= 1
  {
    if Admitted(req) then [BufferChanged(req.channel - 1)] else []
  }

  // ---------------------------------------------------------------------------
  // One tick on one channel

  /** What one tick does to a channel holding `cur` under the pending action `a`. */
  function Resolve(cur: real, a: Action): (r: Resolution)
    ensures r.done ==> r.value == a.value
    ensures !r.done ==> a.kind == FadeTo && a.step != 0.0 && r.value == cur + a.step && r.value != a.value
    ensures a.kind == Set || a.step == 0.0 ==> r == Resolution(a.value, true)
    // a fade never passes its target
    ensures a.kind == FadeTo && a.step > 0.0 ==> r.value <= a.value && (cur <= a.value ==> cur <= r.value)
    ensures a.kind == FadeTo && a.step < 0.0 ==> r.value >= a.value && (cur >= a.value ==> cur >= r.value)
    // reaching or passing the target finishes the fade
    ensures a.kind == FadeTo && a.step > 0.0 && cur + a.step >= a.value ==> r.done
    ensures a.kind == FadeTo && a.step < 0.0 && cur + a.step <= a.value ==> r.done
  {
    match a.kind
    case Set => Resolution(a.value, true)
    case FadeTo =>
      var next := cur + a.step;
      if (a.step > 0.0 && next >= a.value) || (a.step < 0.0 && next <= a.value) || a.step == 0.0 || next == a.value
      then Resolution(a.value, true)
      else Resolution(next, false)
  }

  /** The channel after `n` ticks under `a`, with no other intent in between. */
  function Fade(cur: real, a: Action, n: nat): Resolution
  {
    if n == 0 then Resolution(cur, false)
    else
      var p := Fade(cur, a, n - 1);
      if p.done then p else Resolve(p.value, a)
  }

  /** A fade in progress has advanced by exactly `n` steps and has not yet reached its target. */
  lemma {:induction false} FadeProgress(cur: real, a: Action, n: nat)
    requires a.kind == FadeTo
    ensures Fade(cur, a, n).done ==> n >= 1 && Fade(cur, a, n).value == a.value
    ensures !Fade(cur, a, n).done ==> Fade(cur, a, n).value == cur + (n as real) * a.step
    ensures !Fade(cur, a, n).done && n >= 1 ==>
      (a.step > 0.0 && Fade(cur, a, n).value < a.value) || (a.step < 0.0 && Fade(cur, a, n).value > a.value)
  {
    if n > 0 {
      FadeProgress(cur, a, n - 1);
      var p := Fade(cur, a, n - 1);
      if !p.done {
        assert p.value + a.step == cur + (n as real) * a.step;
      }
    }
  }

  /** A fade never leaves the interval between its start value and its target. */
  lemma {:induction false} FadeStaysBetween(cur: real, a: Action, n: nat)
    requires a.kind == FadeTo
    ensures a.step > 0.0 && cur <= a.value ==> cur <= Fade(cur, a, n).value <= a.value
    ensures a.step < 0.0 && cur >= a.value ==> a.value <= Fade(cur, a, n).value <= cur
  {
    if n > 0 {
      FadeStaysBetween(cur, a, n - 1);
      FadeProgress(cur, a, n - 1);
    }
  }

  /** Once `n` steps reach or pass the target, the channel holds exactly the target and the action is finished. */
  lemma {:induction false} FadeCompletes(cur: real, a: Action, n: nat)
    requires a.kind == FadeTo && n >= 1
    requires a.step == 0.0
          || (a.step > 0.0 && cur + (n as real) * a.step >= a.value)
          || (a.step < 0.0 && cur + (n as real) * a.step <= a.value)
    ensures Fade(cur, a, n) == Resolution(a.value, true)
  {
    FadeProgress(cur, a, n);
    if a.step == 0.0 {
      FadeFirstTickZeroStep(cur, a, n);
    }
  }

  lemma {:induction false} FadeFirstTickZeroStep(cur: real, a: Action, n: nat)
    requires a.kind == FadeTo && n >= 1 && a.step == 0.0
    ensures Fade(cur, a, n) == Resolution(a.value, true)
  {
    if n > 1 {
      FadeFirstTickZeroStep(cur, a, n - 1);
    }
  }

  /**
    An admitted FADETO finishes, at exactly its target, within `n` ticks as soon as
    `n` tick intervals cover its fade time.
   */
  lemma AdmittedFadeCompletes(req: Request, cur: real, interval: real, n: nat)
    requires interval > 0.0 && req.fadeTime >= 0.0 && n >= 1
    requires Admission(req, cur, interval).Some? && Admission(req, cur, interval).value.kind == FadeTo
    requires (n as real) * interval >= FadeTimeFor(req)
    ensures Fade(cur, Admission(req, cur, interval).value, n) == Resolution(req.value.value, true)
  {
    var a := Admission(req, cur, interval).value;
    var ft := FadeTimeFor(req);
    var d := a.value - cur;
    AdmissionStepTowardTarget(req, cur, interval);
    assert a.step * ft == d * interval;
    var nr := n as real;
    assert nr * a.step * ft == nr * interval * d;
    if d > 0.0 {
      assert nr * interval * d >= ft * d;
      assert nr * a.step * ft >= d * ft;
      assert nr * a.step >= d;
    } else if d < 0.0 {
      assert nr * interval * d <= ft * d;
      assert nr * a.step * ft <= d * ft;
      assert nr * a.step <= d;
    }
    FadeCompletes(cur, a, n);
  }

  // ---------------------------------------------------------------------------
  // One tick on the whole table

  /** Table keys lie in `1 .. n-1` and each action's 1-based channel is its key plus one. */
  ghost predicate TableValid(table: map<int, Action>, n: nat) {
    forall k :: k in table ==> 1 <= k < n && table[k].channel == k + 1
  }

  /** `Object.keys` on the table: the keys below `n`, ascending. */
  function KeysBelow(table: map<int, Action>, n: nat): (r: seq<int>)
    ensures forall i :: 0 <= i < |r| ==> 0 <= r[i] < n && r[i] in table
    ensures forall k :: k in table && 0 <= k < n ==> k in r
  {
    if n == 0 then []
    else KeysBelow(table, n - 1) + (if n - 1 in table then [n - 1] else [])
  }

  ghost predicate Ascending(s: seq<int>) {
    forall i, j :: 0 <= i < j < |s| ==> s[i] < s[j]
  }

  /** `KeysBelow` lists the keys in strictly ascending order, so none is visited twice. */
  lemma {:induction false} KeysBelowSorted(table: map<int, Action>, n: nat)
    ensures Ascending(KeysBelow(table, n))
  {
    if n > 0 {
      KeysBelowSorted(table, n - 1);
      var p := KeysBelow(table, n - 1);
      var r := KeysBelow(table, n);
      assert r == p + (if n - 1 in table then [n - 1] else []);
      forall i, j | 0 <= i < j < |r| ensures r[i] < r[j] {
        if j >= |p| {
          assert r[j] == n - 1 && r[i] == p[i];
          assert p[i] < n - 1;
        } else {
          assert r[i] == p[i] && r[j] == p[j];
        }
      }
    }
  }

  /** The buffer after the actions at keys `ks` have been resolved once, from buffer `buf`. */
  function ResolveAll(buf: seq<real>, table: map<int, Action>, ks: seq<int>): (r: seq<real>)
    ensures |r| == |buf|
  {
    seq(|buf|, i requires 0 <= i < |buf| =>
      if i in ks && i in table then Resolve(buf[i], table[i]).value else buf[i])
  }

  /**
    The table after the actions at keys `ks` have been resolved once. A finished action is
    removed, unless preparing its value on the sender threw (its key is in `fails`): the
    catch of the loop then skips the removal.
   */
  function Remaining(buf: seq<real>, table: map<int, Action>, ks: seq<int>, fails: set<int>): (r: map<int, Action>)
    requires forall k :: k in table ==> 0 <= k < |buf|
    ensures r.Keys <= table.Keys
    ensures forall k :: k in r ==> r[k] == table[k]
  {
    map k | k in table && (k in ks && k !in fails ==> !Resolve(buf[k], table[k]).done) :: table[k]
  }

  /** The values prepared on the sender while resolving the actions at keys `ks`; a failed prepare leaves none. */
  function Prepared(buf: seq<real>, table: map<int, Action>, ks: seq<int>, fails: set<int>): (r: map<int, real>)
    requires forall k :: k in table ==> 0 <= k < |buf|
  {
    map k | k in table && k in ks && k !in fails :: Resolve(buf[k], table[k]).value
  }

  /** The events of one visited action: an error when its prepare threw, else `bufferChanged(-1)` when it finished. */
  function KeyEvents(res: Resolution, failed: bool): seq<Event> {
    if failed then [Error(PrepareFailure)]
    else if res.done then [BufferChanged(-1)]
    else []
  }

  /** The events the loop of a tick emits while visiting the keys `ks`, in order. */
  function TickEvents(buf: seq<real>, table: map<int, Action>, ks: seq<int>, fails: set<int>): seq<Event>
    requires forall k :: k in table ==> 0 <= k < |buf|
  {
    if ks == [] then []
    else
      var k := ks[|ks| - 1];
      TickEvents(buf, table, ks[..|ks| - 1], fails)
        + (if k in table then KeyEvents(Resolve(buf[k], table[k]), k in fails) else [])
  }

  /** How many of the actions at keys `ks` finish in this tick. */
  function Completed(buf: seq<real>, table: map<int, Action>, ks: seq<int>): nat
    requires forall k :: k in table ==> 0 <= k < |buf|
  {
    if ks == [] then 0
    else
      var k := ks[|ks| - 1];
      Completed(buf, table, ks[..|ks| - 1]) + (if k in table && Resolve(buf[k], table[k]).done then 1 else 0)
  }

  function Repeat(e: Event, n: nat): (r: seq<Event>)
    ensures |r| == n && forall i :: 0 <= i < n ==> r[i] == e
  {
    seq(n, _ => e)
  }

  /** When no prepare fails, the loop emits exactly one `bufferChanged(-1)` per finished action. */
  lemma {:induction false} TickEventsWithoutFailures(buf: seq<real>, table: map<int, Action>, ks: seq<int>)
    requires forall k :: k in table ==> 0 <= k < |buf|
    ensures TickEvents(buf, table, ks, {}) == Repeat(BufferChanged(-1), Completed(buf, table, ks))
  {
    if ks != [] {
      var k := ks[|ks| - 1];
      var p := ks[..|ks| - 1];
      TickEventsWithoutFailures(buf, table, p);
      var n := Completed(buf, table, p);
      var more := k in table && Resolve(buf[k], table[k]).done;
      assert (if k in table then KeyEvents(Resolve(buf[k], table[k]), k in {}) else []) == (if more then [BufferChanged(-1)] else []);
      RepeatSnoc([], BufferChanged(-1), n, more);
    }
  }

  /** The loop reports a prepare error exactly when some visited pending action's prepare threw. */
  lemma {:induction false} TickEventsErrors(buf: seq<real>, table: map<int, Action>, ks: seq<int>, fails: set<int>)
    requires forall k :: k in table ==> 0 <= k < |buf|
    ensures Error(PrepareFailure) in TickEvents(buf, table, ks, fails) <==> exists k :: k in ks && k in table && k in fails
  {
    if ks != [] {
      var k := ks[|ks| - 1];
      var p := ks[..|ks| - 1];
      TickEventsErrors(buf, table, p, fails);
      assert ks == p + [k];
      if exists j :: j in ks && j in table && j in fails {
        var j :| j in ks && j in table && j in fails;
        if j != k {
          assert j in p;
        }
      }
    }
  }

  /** The events the transmit step of a tick emits. */
  function ConnectionEvents(wasConnected: bool, transmitted: bool): (r: seq<Event>)
    ensures transmitted && wasConnected ==> r == []
    ensures transmitted && !wasConnected ==> r == [ConnectionStateChanged(true)]
    ensures !transmitted ==> r == [Error(TransmitFailure), ConnectionStateChanged(false)]
  {
    if transmitted then (if wasConnected then [] else [ConnectionStateChanged(true)])
    else [Error(TransmitFailure), ConnectionStateChanged(false)]
  }

  /**
    A whole tick, channel by channel: every pending channel gets its resolved value, also
    when its prepare threw, since the buffer is written before `prepChannel` is called; the
    others are untouched. A pending channel whose prepare succeeded is prepared with that
    value and stays pending exactly when its action has not finished; one whose prepare
    threw keeps its action and is not prepared.
   */
  lemma TickChannels(buf: seq<real>, table: map<int, Action>, fails: set<int>, i: int)
    requires TableValid(table, |buf|) && 0 <= i < |buf|
    ensures var ks := KeysBelow(table, |buf|);
      && (i in table ==> ResolveAll(buf, table, ks)[i] == Resolve(buf[i], table[i]).value)
      && (i !in table ==> ResolveAll(buf, table, ks)[i] == buf[i]
                          && i !in Remaining(buf, table, ks, fails) && i !in Prepared(buf, table, ks, fails))
      && (i in table && i !in fails ==>
            && (i in Remaining(buf, table, ks, fails) <==> !Resolve(buf[i], table[i]).done)
            && i in Prepared(buf, table, ks, fails)
            && Prepared(buf, table, ks, fails)[i] == ResolveAll(buf, table, ks)[i])
      && (i in table && i in fails ==>
            && i in Remaining(buf, table, ks, fails) && Remaining(buf, table, ks, fails)[i] == table[i]
            && i !in Prepared(buf, table, ks, fails))
  {
  }

  /**
    Before `startBufferUpdate` has set the interval it is 0, so an admitted FADETO gets a
    zero step and jumps to its target on the next tick, like a SET.
   */
  lemma FadeBeforeStartJumps(req: Request, cur: real)
    requires Admission(req, cur, 0.0).Some?
    ensures Admission(req, cur, 0.0).value.step == 0.0 || Admission(req, cur, 0.0).value.kind == Set
    ensures Resolve(cur, Admission(req, cur, 0.0).value) == Resolution(req.value.value, true)
  {
  }

  /**
    One tick after a SET was admitted the channel holds its value, and unless its prepare
    threw the table has no entry for it any more.
   */
  lemma SetTakesOneTick(table: map<int, Action>, buf: seq<real>, interval: real, req: Request, fails: set<int>)
    requires TableValid(table, |buf|) && req.channel <= |buf|
    requires Admitted(req) && KindOf(req.action) == Some(Set)
    ensures var t := AdmitInto(table, buf, interval, req);
      var ks := KeysBelow(t, |buf|);
      && ResolveAll(buf, t, ks)[req.channel - 1] == req.value.value
      && (req.channel - 1 !in Remaining(buf, t, ks, fails) <==> req.channel - 1 !in fails)
  {
    var i := req.channel - 1;
    var a := Admission(req, buf[i], interval).value;
    var t := AdmitInto(table, buf, interval, req);
    assert t == table[i := a];
    assert a.kind == Set && a.value == req.value.value;
    assert TableValid(t, |buf|);
    var ks := KeysBelow(t, |buf|);
    assert i in t && i in ks;
    assert Resolve(buf[i], t[i]) == Resolution(req.value.value, true);
    assert ResolveAll(buf, t, ks)[i] == req.value.value;
  }

  // ---------------------------------------------------------------------------
  // setBuffer's validation

  /** What `setBuffer` reports for a candidate buffer; `None` means it is accepted. */
  function BufferCheck(values: Option<seq<real>>): (r: Option<Cause>)
    ensures r == None <==> values.Some? && |values.value| == ChannelCount
                           && forall i :: 0 <= i < |values.value| ==> 0.0 <= values.value[i] <= 255.0
    ensures r == Some(InvalidBufferShape) <==> values.None? || |values.value| != ChannelCount
  {
    if values.None? || |values.value| != ChannelCount then Some(InvalidBufferShape)
    else if exists i :: 0 <= i < |values.value| && (values.value[i] < 0.0 || values.value[i] > 255.0)
    then Some(ValueOutOfRange)
    else None
  }

  // ---------------------------------------------------------------------------
  // The buffer object

  class ArtnetActionBuffer {
    var configuration: Config
    /** The current channel values; index `i` is channel `i + 1`. */
    var buffer: array<real>
    var bufferUpdateInterval: real
    /** The pending actions, keyed by 0-based index. */
    var actions: map<int, Action>
    var isConnected: bool
    /** Whether a sender exists (`artnetSender` is not null). */
    var hasSender: bool
    /** The channel values prepared on the current sender. */
    var staged: map<int, real>
    /** Everything emitted so far, in order. */
    ghost var events: seq<Event>

    ghost predicate Valid()
      reads this
    {
      && buffer.Length == ChannelCount && TableValid(actions, ChannelCount)
      && (!hasSender ==> staged == map[])
    }

    constructor (config: Config)
      ensures Valid() && fresh(buffer)
      ensures configuration == config && bufferUpdateInterval == 0.0
      ensures buffer[..] == seq(ChannelCount, _ => 0.0)
      ensures actions == map[] && !isConnected && !hasSender && staged == map[] && events == []
    {
      configuration := config;
      buffer := new real[ChannelCount](_ => 0.0);
      bufferUpdateInterval := 0.0;
      actions := map[];
      isConnected := false;
      hasSender := false;
      staged := map[];
      events := [];
    }

    /**
      `setBuffer`: a valid 512-element buffer with every value in 0..255 replaces the
      channel buffer; anything else emits one error and changes nothing.
     */
    method SetBuffer(values: Option<seq<real>>)
      requires Valid()
      modifies this
      ensures Valid()
      ensures BufferCheck(values) == None ==> fresh(buffer) && buffer[..] == values.value && events == old(events)
      ensures BufferCheck(values).Some? ==>
        buffer == old(buffer) && events == old(events) + [Error(BufferCheck(values).value)]
      ensures buffer == old(buffer) ==> buffer[..] == old(buffer[..])
      ensures actions == old(actions) && isConnected == old(isConnected) && hasSender == old(hasSender)
      ensures staged == old(staged) && configuration == old(configuration)
      ensures bufferUpdateInterval == old(bufferUpdateInterval)
    {
      if values.None? || |values.value| != ChannelCount {
        events := events + [Error(InvalidBufferShape)];
        return;
      }
      var vs := values.value;
      for idx := 0 to ChannelCount
        invariant forall j :: 0 <= j < idx ==> 0.0 <= vs[j] <= 255.0
      {
        if vs[idx] < 0.0 || vs[idx] > 255.0 {
          events := events + [Error(ValueOutOfRange)];
          return;
        }
      }
      buffer := new real[ChannelCount](i requires 0 <= i < ChannelCount => vs[i]);
    }

    /** `defaultConfiguration`. */
    method DefaultConfiguration()
      modifies this`configuration
      ensures configuration == Defaulted(old(configuration))
    {
      configuration := Defaulted(configuration);
    }

    /**
      `startBufferUpdate`: defaults the configuration, replaces the sender (`connectOk`
      says whether the new one could be built), sets the tick interval and prepares every
      channel's current value on the sender. Without a sender the preparing loop throws
      (`threw`), leaving no values prepared.
     */
    method StartBufferUpdate(connectOk: bool) returns (threw: bool)
      requires Valid()
      modifies this
      ensures Valid() && buffer == old(buffer) && buffer[..] == old(buffer[..])
      ensures configuration == Defaulted(old(configuration))
      ensures bufferUpdateInterval == IntervalFor(configuration.framesPerSec)
      ensures hasSender == connectOk && threw == !connectOk
      ensures connectOk ==> staged == map i | 0 <= i < ChannelCount :: buffer[i]
      ensures !connectOk ==> staged == map[]
      ensures events == old(events) + (if connectOk then [] else [Error(ConnectionFailure)])
      ensures actions == old(actions) && isConnected == old(isConnected)
    {
      DefaultConfiguration();
      // disconnectFromArtNet: the old sender is stopped and dropped
      if hasSender {
        hasSender := false;
        staged := map[];
      }
      // connectToArtNet: construction failures are reported, not thrown
      if connectOk {
        hasSender := true;
      } else {
        events := events + [Error(ConnectionFailure)];
      }
      bufferUpdateInterval := IntervalFor(configuration.framesPerSec);
      if !hasSender {
        // `prepChannel` on a null sender: a TypeError escapes
        threw := true;
        return;
      }
      PrepareAll();
      threw := false;
    }

    /** The loop of `startBufferUpdate` that prepares every channel's value on a fresh sender. */
    method PrepareAll()
      requires Valid() && hasSender && staged == map[]
      modifies this`staged
      ensures Valid() && staged == map i | 0 <= i < ChannelCount :: buffer[i]
    {
      for idx := 0 to buffer.Length
        invariant staged == map i | 0 <= i < idx :: buffer[i]
      {
        staged := staged[idx := buffer[idx]];
      }
    }

    /**
      `addAction`: stores the admitted action for index `channel - 1`, replacing any
      earlier one, and emits `bufferChanged` with that index. The source does not bound
      the channel from above; the model asks for a channel inside the buffer.
     */
    method AddAction(req: Request)
      requires Valid() && req.channel <= ChannelCount
      modifies this`actions, this`events
      ensures Valid()
      ensures actions == AdmitInto(old(actions), buffer[..], bufferUpdateInterval, req)
      ensures events == old(events) + AdmissionEvents(req)
    {
      var channel := req.channel - 1;
      var kind := KindOf(req.action);
      if channel == 0 || channel < 0 {
        return;
      }
      if req.value.None? {
        return;
      }
      var v := req.value.value;
      match kind {
        case Some(Set) =>
          actions := actions[channel := Action(req.channel, Set, v, 0.0, v - buffer[channel])];
        case Some(FadeTo) =>
          var ft := if req.fadeTime != 0.0 then req.fadeTime else DefaultFadeTime;
          actions := actions[channel := Action(req.channel, FadeTo, v, ft, (v - buffer[channel]) / ft * bufferUpdateInterval)];
          ghost var adm := Admission(req, buffer[channel], bufferUpdateInterval).value;
          assert adm.step == actions[channel].step;
          assert actions[channel] == adm;
        case None =>
      }
      events := events + [BufferChanged(channel)];
    }

    /**
      The body of the tick loop for one pending action: the channel is advanced (FADETO)
      or assigned (SET) and its value is prepared on the sender; a finished action is
      removed with a `bufferChanged(-1)`. `prepOk` is the outcome of `prepChannel`: when it
      throws, the catch emits an error and the action stays, with the buffer already written.
     */
    method ApplyAction(key: int, prepOk: bool)
      requires Valid() && hasSender && key in actions && actions[key].channel - 1 == key
      modifies this`actions, this`staged, this`events, buffer
      ensures Valid()
      ensures var res := Resolve(old(buffer[..])[key], old(actions)[key]);
        && buffer[..] == old(buffer[..])[key := res.value]
        && actions == (if res.done && prepOk then old(actions) - {key} else old(actions))
        && staged == (if prepOk then old(staged)[key := res.value] else old(staged))
        && events == old(events) + KeyEvents(res, !prepOk)
    {
      var actionObj := actions[key];
      var ch := actionObj.channel - 1;
      var deleteBufferAction := false;
      match actionObj.kind {
        case FadeTo =>
          buffer[ch] := buffer[ch] + actionObj.step;
          if (actionObj.step > 0.0 && buffer[ch] >= actionObj.value)
            || (actionObj.step < 0.0 && buffer[ch] <= actionObj.value)
            || actionObj.step == 0.0 || buffer[ch] == actionObj.value
          {
            buffer[ch] := actionObj.value;
            deleteBufferAction := true;
          }
        case Set =>
          buffer[ch] := actionObj.value;
          deleteBufferAction := true;
      }
      if !prepOk {
        // caught: the error is emitted and the loop goes on with the next key
        events := events + [Error(PrepareFailure)];
        return;
      }
      staged := staged[ch := buffer[ch]];
      if deleteBufferAction {
        actions := actions - {key};
        events := events + [BufferChanged(-1)];
      }
    }

    /**
      `updateArtnetBuffer`: one tick. Without a sender nothing happens. Otherwise every
      pending action is resolved once, in ascending key order, its channel's value is
      prepared on the sender, finished actions are removed with a `bufferChanged(-1)`
      each, and the frame is transmitted. `prepFails` holds the keys whose `prepChannel`
      throws and `transmitOk` is the transmit's outcome.
     */
    method UpdateArtnetBuffer(prepFails: set<int>, transmitOk: bool)
      requires Valid()
      modifies this`actions, this`staged, this`events, this`isConnected, buffer
      ensures Valid() && buffer == old(buffer)
      ensures !old(hasSender) ==>
        && buffer[..] == old(buffer[..]) && actions == old(actions) && staged == old(staged)
        && isConnected == old(isConnected) && events == old(events)
      ensures old(hasSender) ==>
        var ks := KeysBelow(old(actions), ChannelCount);
        && buffer[..] == ResolveAll(old(buffer[..]), old(actions), ks)
        && actions == Remaining(old(buffer[..]), old(actions), ks, prepFails)
        && staged == old(staged) + Prepared(old(buffer[..]), old(actions), ks, prepFails)
        && isConnected == transmitOk
        && events == old(events) + TickEvents(old(buffer[..]), old(actions), ks, prepFails)
                                 + ConnectionEvents(old(isConnected), transmitOk)
    {
      if !hasSender {
        return;
      }
      ResolvePending(prepFails);
      // transmitValues
      if transmitOk {
        if !isConnected {
          isConnected := true;
          events := events + [ConnectionStateChanged(true)];
        }
      } else {
        isConnected := false;
        events := events + [Error(TransmitFailure), ConnectionStateChanged(false)];
      }
    }

    /** The loop of `updateArtnetBuffer` over the pending actions, in ascending key order. */
    method ResolvePending(prepFails: set<int>)
      requires Valid() && hasSender
      modifies this`actions, this`staged, this`events, buffer
      ensures Valid()
      ensures var ks := KeysBelow(old(actions), ChannelCount);
        && buffer[..] == ResolveAll(old(buffer[..]), old(actions), ks)
        && actions == Remaining(old(buffer[..]), old(actions), ks, prepFails)
        && staged == old(staged) + Prepared(old(buffer[..]), old(actions), ks, prepFails)
        && events == old(events) + TickEvents(old(buffer[..]), old(actions), ks, prepFails)
    {
      var keys := KeysBelow(actions, buffer.Length);
      ghost var buf0, table0, staged0, events0 := buffer[..], actions, staged, events;
      for idx := 0 to |keys|
        invariant Valid()
        invariant TickInv(buf0, table0, staged0, keys, prepFails, idx, buffer[..], actions, staged)
        invariant TickEventsInv(buf0, table0, events0, keys, prepFails, idx, events)
      {
        ghost var b, a, st, ev := buffer[..], actions, staged, events;
        TickNext(buf0, table0, staged0, keys, prepFails, idx, b, a, st);
        ApplyAction(keys[idx], keys[idx] !in prepFails);
        TickInvStep(buf0, table0, staged0, keys, prepFails, idx, b, a, st, buffer[..], actions, staged);
        TickEventsStep(buf0, table0, events0, keys, prepFails, idx, ev, events);
      }
      TickInvDone(buf0, table0, staged0, keys, prepFails, buffer[..], actions, staged);
    }
  }

  /** The facts one iteration of the tick loop relies on: its key is pending, untouched so far and its own channel. */
  lemma TickStepFacts(buf0: seq<real>, table0: map<int, Action>, keys: seq<int>, fails: set<int>, idx: nat)
    requires TableValid(table0, |buf0|)
    requires keys == KeysBelow(table0, |buf0|) && idx < |keys|
    ensures keys[idx] in table0 && keys[idx] !in keys[..idx]
    ensures table0[keys[idx]].channel - 1 == keys[idx]
    ensures keys[idx] in Remaining(buf0, table0, keys[..idx], fails)
    ensures ResolveAll(buf0, table0, keys[..idx])[keys[idx]] == buf0[keys[idx]]
  {
    KeysBelowSorted(table0, |buf0|);
  }

  /** Resolving one more key extends each of the tick's specification functions by that key alone. */
  lemma TickStep(buf0: seq<real>, table0: map<int, Action>, keys: seq<int>, fails: set<int>, idx: nat)
    requires TableValid(table0, |buf0|)
    requires keys == KeysBelow(table0, |buf0|) && idx < |keys|
    ensures var k := keys[idx];
      var res := Resolve(buf0[k], table0[k]);
      && ResolveAll(buf0, table0, keys[..idx + 1]) == ResolveAll(buf0, table0, keys[..idx])[k := res.value]
      && Remaining(buf0, table0, keys[..idx + 1], fails)
         == (if res.done && k !in fails then Remaining(buf0, table0, keys[..idx], fails) - {k}
             else Remaining(buf0, table0, keys[..idx], fails))
      && Prepared(buf0, table0, keys[..idx + 1], fails)
         == (if k !in fails then Prepared(buf0, table0, keys[..idx], fails)[k := res.value]
             else Prepared(buf0, table0, keys[..idx], fails))
  {
    var k := keys[idx];
    assert keys[..idx + 1] == keys[..idx] + [k];
    TickStepFacts(buf0, table0, keys, fails, idx);
    ResolveAllSnoc(buf0, table0, keys[..idx], k);
    RemainingSnoc(buf0, table0, keys[..idx], fails, k);
    PreparedSnoc(buf0, table0, keys[..idx], fails, k);
  }

  /** Visiting one more key appends that key's events. */
  lemma TickEventsGrow(buf0: seq<real>, table0: map<int, Action>, keys: seq<int>, fails: set<int>, idx: nat)
    requires forall k :: k in table0 ==> 0 <= k < |buf0|
    requires idx < |keys| && keys[idx] in table0
    ensures TickEvents(buf0, table0, keys[..idx + 1], fails)
         == TickEvents(buf0, table0, keys[..idx], fails) + KeyEvents(Resolve(buf0[keys[idx]], table0[keys[idx]]), keys[idx] in fails)
  {
    assert keys[..idx + 1][..idx] == keys[..idx];
  }

  lemma ResolveAllSnoc(buf: seq<real>, table: map<int, Action>, ks: seq<int>, k: int)
    requires 0 <= k < |buf| && k in table
    ensures ResolveAll(buf, table, ks + [k]) == ResolveAll(buf, table, ks)[k := Resolve(buf[k], table[k]).value]
  {
    var l, r := ResolveAll(buf, table, ks + [k]), ResolveAll(buf, table, ks)[k := Resolve(buf[k], table[k]).value];
    forall i | 0 <= i < |buf| ensures l[i] == r[i] {
      assert i in ks + [k] <==> i in ks || i == k;
    }
  }

  lemma RemainingSnoc(buf: seq<real>, table: map<int, Action>, ks: seq<int>, fails: set<int>, k: int)
    requires forall j :: j in table ==> 0 <= j < |buf|
    requires k in table && k !in ks
    ensures Remaining(buf, table, ks + [k], fails)
         == (if Resolve(buf[k], table[k]).done && k !in fails then Remaining(buf, table, ks, fails) - {k}
             else Remaining(buf, table, ks, fails))
  {
    forall j ensures j in ks + [k] <==> j in ks || j == k {}
  }

  lemma PreparedSnoc(buf: seq<real>, table: map<int, Action>, ks: seq<int>, fails: set<int>, k: int)
    requires forall j :: j in table ==> 0 <= j < |buf|
    requires k in table
    ensures Prepared(buf, table, ks + [k], fails)
         == (if k !in fails then Prepared(buf, table, ks, fails)[k := Resolve(buf[k], table[k]).value]
             else Prepared(buf, table, ks, fails))
  {
    forall j ensures j in ks + [k] <==> j in ks || j == k {}
  }

  lemma UnionUpdate<K, V>(a: map<K, V>, b: map<K, V>, k: K, v: V)
    ensures (a + b)[k := v] == a + b[k := v]
  {
  }

  lemma RepeatSnoc(prefix: seq<Event>, e: Event, n: nat, more: bool)
    ensures prefix + Repeat(e, n) + (if more then [e] else []) == prefix + Repeat(e, n + (if more then 1 else 0))
  {
    if more {
      assert Repeat(e, n + 1) == Repeat(e, n) + [e];
    }
  }

  /**
    The invariant of the tick loop after `idx` of the pending keys: buffer `b`, table `a`
    and sender values `st` are the tick's specification functions applied to that prefix.
   */
  ghost predicate TickInv(buf0: seq<real>, table0: map<int, Action>, staged0: map<int, real>,
                          keys: seq<int>, fails: set<int>, idx: nat, b: seq<real>, a: map<int, Action>, st: map<int, real>)
  {
    && TableValid(table0, |buf0|)
    && keys == KeysBelow(table0, |buf0|) && idx <= |keys|
    && b == ResolveAll(buf0, table0, keys[..idx])
    && a == Remaining(buf0, table0, keys[..idx], fails)
    && st == staged0 + Prepared(buf0, table0, keys[..idx], fails)
  }

  /** One iteration of the tick loop, from state `b, a, st` to `b2, a2, st2`, keeps its invariant. */
  lemma TickInvStep(buf0: seq<real>, table0: map<int, Action>, staged0: map<int, real>,
                    keys: seq<int>, fails: set<int>, idx: nat, b: seq<real>, a: map<int, Action>, st: map<int, real>,
                    b2: seq<real>, a2: map<int, Action>, st2: map<int, real>)
    requires TickInv(buf0, table0, staged0, keys, fails, idx, b, a, st) && idx < |keys|
    requires 0 <= keys[idx] < |b| && keys[idx] in a
    requires var k := keys[idx];
      var res := Resolve(b[k], a[k]);
      && b2 == b[k := res.value]
      && a2 == (if res.done && k !in fails then a - {k} else a)
      && st2 == (if k !in fails then st[k := res.value] else st)
    ensures TickInv(buf0, table0, staged0, keys, fails, idx + 1, b2, a2, st2)
  {
    var k := keys[idx];
    TickStepFacts(buf0, table0, keys, fails, idx);
    TickStep(buf0, table0, keys, fails, idx);
    var res := Resolve(buf0[k], table0[k]);
    assert Resolve(b[k], a[k]) == res;
    UnionUpdate(staged0, Prepared(buf0, table0, keys[..idx], fails), k, res.value);
  }

  /** When the tick loop ends, its state is the specification functions applied to all pending keys. */
  lemma TickInvDone(buf0: seq<real>, table0: map<int, Action>, staged0: map<int, real>,
                    keys: seq<int>, fails: set<int>, b: seq<real>, a: map<int, Action>, st: map<int, real>)
    requires TickInv(buf0, table0, staged0, keys, fails, |keys|, b, a, st)
    ensures b == ResolveAll(buf0, table0, keys) && a == Remaining(buf0, table0, keys, fails)
    ensures st == staged0 + Prepared(buf0, table0, keys, fails)
    ensures keys[..|keys|] == keys
  {
    assert keys[..|keys|] == keys;
  }

  /** The events the tick loop has emitted after visiting `idx` of the pending keys. */
  ghost predicate TickEventsInv(buf0: seq<real>, table0: map<int, Action>, events0: seq<Event>,
                                keys: seq<int>, fails: set<int>, idx: nat, ev: seq<Event>)
    requires forall k :: k in table0 ==> 0 <= k < |buf0|
  {
    idx <= |keys| && ev == events0 + TickEvents(buf0, table0, keys[..idx], fails)
  }

  /** The key the tick loop visits next is pending, its own channel, and still as the tick found it. */
  lemma TickNext(buf0: seq<real>, table0: map<int, Action>, staged0: map<int, real>,
                 keys: seq<int>, fails: set<int>, idx: nat, b: seq<real>, a: map<int, Action>, st: map<int, real>)
    requires TickInv(buf0, table0, staged0, keys, fails, idx, b, a, st) && idx < |keys|
    ensures 0 <= keys[idx] < |b| && keys[idx] in a && a[keys[idx]].channel - 1 == keys[idx]
    ensures keys[idx] in table0 && b[keys[idx]] == buf0[keys[idx]] && a[keys[idx]] == table0[keys[idx]]
  {
    TickStepFacts(buf0, table0, keys, fails, idx);
  }

  /** Visiting one more key appends that key's events to the log. */
  lemma TickEventsStep(buf0: seq<real>, table0: map<int, Action>, events0: seq<Event>,
                       keys: seq<int>, fails: set<int>, idx: nat, ev: seq<Event>, ev2: seq<Event>)
    requires forall k :: k in table0 ==> 0 <= k < |buf0|
    requires TickEventsInv(buf0, table0, events0, keys, fails, idx, ev) && idx < |keys| && keys[idx] in table0
    requires ev2 == ev + KeyEvents(Resolve(buf0[keys[idx]], table0[keys[idx]]), keys[idx] in fails)
    ensures TickEventsInv(buf0, table0, events0, keys, fails, idx + 1, ev2)
  {
    TickEventsGrow(buf0, table0, keys, fails, idx);
    var k := keys[idx];
    var more := KeyEvents(Resolve(buf0[k], table0[k]), k in fails);
    var p := TickEvents(buf0, table0, keys[..idx], fails);
    assert events0 + p + more == events0 + (p + more);
  }
}
