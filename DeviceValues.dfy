/**
  The device logic of the adapter (main.js), on values: JavaScript values as they occur
  in a device's settings and values, normalisation of a values object by device type,
  the brightness multiplier, the FADETO requests built for a device, the startup channel
  buffer, and the splitting of state ids.
 */
module DeviceValues {
  import opened Wrappers
  import opened Strings
  import AB = ActionBuffer

  // ---------------------------------------------------------------------------
  // JavaScript values

  /** The values a device field can hold; strings and NaN-valued numbers are not modelled. */
  datatype JsValue = Undefined | Null | Bool(b: bool) | Number(n: real)

  /** `Number(v)`, with `None` for NaN: `null` is 0, booleans are 0 / 1, `undefined` is NaN. */
  function ToNumber(v: JsValue): (r: Option<real>)
    ensures r.None? <==> v.Undefined?
    ensures v.Number? ==> r == Some(v.n)
    ensures v.Null? ==> r == Some(0.0)
  {
    match v
    case Undefined => None
    case Null => Some(0.0)
    case Bool(b) => Some(if b then 1.0 else 0.0)
    case Number(n) => Some(n)
  }

  predicate Truthy(v: JsValue) {
    match v
    case Undefined => false
    case Null => false
    case Bool(b) => b
    case Number(n) => n != 0.0
  }

  /** The loose equality `==`: `null` and `undefined` equal each other only; booleans compare as numbers. */
  predicate LooseEquals(x: JsValue, y: JsValue) {
    if x.Undefined? || x.Null? then y.Undefined? || y.Null?
    else if y.Undefined? || y.Null? then false
    else ToNumber(x) == ToNumber(y)
  }

  /** Loose equality is an equivalence on the modelled values. */
  lemma LooseEqualsEquivalence(x: JsValue, y: JsValue, z: JsValue)
    ensures LooseEquals(x, x)
    ensures LooseEquals(x, y) ==> LooseEquals(y, x)
    ensures LooseEquals(x, y) && LooseEquals(y, z) ==> LooseEquals(x, z)
  {
  }

  /** `x !== undefined ? x : y`. */
  function Fill(x: JsValue, y: JsValue): (r: JsValue)
    ensures r.Undefined? <==> x.Undefined? && y.Undefined?
    ensures !x.Undefined? ==> r == x
  {
    if !x.Undefined? then x else y
  }

  /** A product of numbers that may be NaN. */
  function Times(x: Option<real>, y: Option<real>): (r: Option<real>)
    ensures r.Some? <==> x.Some? && y.Some?
    ensures r.Some? ==> r.value == x.value * y.value
  {
    if x.Some? && y.Some? then Some(x.value * y.value) else None
  }

  // ---------------------------------------------------------------------------
  // Device types, channels and capabilities

  datatype DeviceType = Dimmable | Tw | Rgb | Rgbw | Rgbtw | Untyped

  /** The `settings.type` names; any other name (the default is "") is no known type. */
  function TypeOf(name: string): (r: DeviceType)
    ensures r == Dimmable <==> name == "dimmable"
    ensures r == Tw <==> name == "TW"
    ensures r == Rgb <==> name == "RGB"
    ensures r == Rgbw <==> name == "RGBW"
    ensures r == Rgbtw <==> name == "RGBTW"
  {
    if name == "dimmable" then Dimmable
    else if name == "TW" then Tw
    else if name == "RGB" then Rgb
    else if name == "RGBW" then Rgbw
    else if name == "RGBTW" then Rgbtw
    else Untyped
  }

  /** The colour channels of a device, in the order their keys are enumerated. */
  datatype Colour = Main | Red | Green | Blue | White

  const Colours: seq<Colour> := [Main, Red, Green, Blue, White]

  datatype Channels = Channels(main: JsValue, red: JsValue, green: JsValue, blue: JsValue, white: JsValue) {
    function Get(c: Colour): JsValue {
      match c
      case Main => main
      case Red => red
      case Green => green
      case Blue => blue
      case White => white
    }
  }

  /** `{}`: every channel undefined. */
  const NoChannels: Channels := Channels(Undefined, Undefined, Undefined, Undefined, Undefined)

  /** The DMX address mapped to each colour (`settings.channel`); `None` is `null`. */
  datatype Addresses = Addresses(main: Option<int>, red: Option<int>, green: Option<int>, blue: Option<int>, white: Option<int>) {
    function Get(c: Colour): Option<int> {
      match c
      case Main => main
      case Red => red
      case Green => green
      case Blue => blue
      case White => white
    }

    /** The addresses of the mapped colours. */
    function MappedSet(): (r: set<int>)
      ensures forall c :: Mapped(Get(c)) ==> Get(c).value in r
    {
      (if Mapped(main) then {main.value} else {}) + (if Mapped(red) then {red.value} else {})
        + (if Mapped(green) then {green.value} else {}) + (if Mapped(blue) then {blue.value} else {})
        + (if Mapped(white) then {white.value} else {})
    }
  }

  /** An address is used when it is truthy: present and not 0. */
  predicate Mapped(a: Option<int>) {
    a.Some? && a.value != 0
  }

  // The capability flags computed when a device is created or updated.
  predicate HasRgb(t: DeviceType) { t == Rgb || t == Rgbw || t == Rgbtw }
  predicate HasColorTemperature(t: DeviceType) { t == Rgbtw || t == Tw || t == Rgbw }
  predicate HasMain(t: DeviceType) { t == Dimmable || t == Rgbtw || t == Tw }
  predicate HasWhite(t: DeviceType) { HasColorTemperature(t) || t == Rgbw }

  // The fields `prepareValuesObjectForDevice` clears for a device type.
  predicate ClearsRgb(t: DeviceType) { t == Dimmable || t == Tw }
  predicate ClearsWhite(t: DeviceType) { t == Dimmable || t == Rgb }
  predicate ClearsMain(t: DeviceType) { t == Rgb || t == Rgbw }
  predicate ClearsTemperature(t: DeviceType) { t == Dimmable || t == Rgb }

  predicate ClearsColour(t: DeviceType, c: Colour) {
    match c
    case Main => ClearsMain(t)
    case Red => ClearsRgb(t)
    case Green => ClearsRgb(t)
    case Blue => ClearsRgb(t)
    case White => ClearsWhite(t)
  }

  /**
    For every known device type, normalisation clears exactly the fields the device
    has no capability (no state) for; a device of unknown type keeps every field and
    has no capability.
   */
  lemma ClearingMatchesCapabilities(t: DeviceType)
    ensures t != Untyped ==>
      && (ClearsRgb(t) <==> !HasRgb(t))
      && (ClearsWhite(t) <==> !HasWhite(t))
      && (ClearsMain(t) <==> !HasMain(t))
      && (ClearsTemperature(t) <==> !HasColorTemperature(t))
    ensures t == Untyped ==>
      !ClearsRgb(t) && !ClearsWhite(t) && !ClearsMain(t) && !ClearsTemperature(t)
      && !HasRgb(t) && !HasWhite(t) && !HasMain(t) && !HasColorTemperature(t)
  {
  }

  // ---------------------------------------------------------------------------
  // Values objects and their normalisation

  /** A values object; `channel == None` is a missing `channel` property. */
  datatype Values = Values(isOn: JsValue, brightness: JsValue, temperature: JsValue, fadeTime: JsValue,
                           channel: Option<Channels>)

  /** A device's stored values (`device.values`). */
  datatype StoredValues = StoredValues(isOn: JsValue, brightness: JsValue, temperature: JsValue, channel: Channels)

  /** The temperature mix applies to a defined temperature that compares within 0..100. */
  predicate MixApplies(temperature: JsValue) {
    !temperature.Undefined? && ToNumber(temperature).Some? && 0.0 <= ToNumber(temperature).value <= 100.0
  }

  /** The warm-white share a temperature gives the main channel: 255 * t / 100. */
  function MixedMain(temperature: JsValue): real
    requires MixApplies(temperature)
  {
    255.0 * (ToNumber(temperature).value / 100.0)
  }

  /** The channel values before defaulting: the temperature mix, then the fixed main of a dimmable device. */
  function Mixed(t: DeviceType, temperature: JsValue, ch: Channels): (r: Channels)
    ensures MixApplies(temperature) && t != Dimmable ==>
      && r.main == Number(MixedMain(temperature)) && r.white == Number(255.0 - MixedMain(temperature))
      && (t == Rgbw ==> r.red == r.main && r.green == r.main && r.blue == r.main)
      && (t != Rgbw ==> r.red == ch.red && r.green == ch.green && r.blue == ch.blue)
    ensures t == Dimmable ==> r.main == Number(255.0)
    ensures !MixApplies(temperature) && t != Dimmable ==> r == ch
  {
    var mixed :=
      if MixApplies(temperature) then
        var main := MixedMain(temperature);
        var c := ch.(main := Number(main), white := Number(255.0 - main));
        if t == Rgbw then c.(red := c.main, green := c.main, blue := c.main) else c
      else ch;
    if t == Dimmable then mixed.(main := Number(255.0)) else mixed
  }

  function FillChannels(x: Channels, y: Channels): (r: Channels)
    ensures forall c :: r.Get(c) == Fill(x.Get(c), y.Get(c))
  {
    Channels(Fill(x.main, y.main), Fill(x.red, y.red), Fill(x.green, y.green), Fill(x.blue, y.blue), Fill(x.white, y.white))
  }

  const ZeroChannels: Channels := Channels(Number(0.0), Number(0.0), Number(0.0), Number(0.0), Number(0.0))

  function ClearChannels(t: DeviceType, ch: Channels): (r: Channels)
    ensures forall c :: r.Get(c) == if ClearsColour(t, c) then Undefined else ch.Get(c)
  {
    Channels(
      if ClearsMain(t) then Undefined else ch.main,
      if ClearsRgb(t) then Undefined else ch.red,
      if ClearsRgb(t) then Undefined else ch.green,
      if ClearsRgb(t) then Undefined else ch.blue,
      if ClearsWhite(t) then Undefined else ch.white)
  }

  /**
    `prepareValuesObjectForDevice` on values: the values object `v` of a device of type
    `t` with stored values `s`; `fadeTime` is what `getBufferActionFadeTime` yields,
    consulted only when `v` has no fade time.
   */
  function Prepared(t: DeviceType, v: Values, s: StoredValues, fadeTime: real): Values {
    var ch := Mixed(t, v.temperature, v.channel.GetOr(NoChannels));
    Values(
      Fill(Fill(v.isOn, s.isOn), Bool(false)),
      Fill(Fill(v.brightness, s.brightness), Number(100.0)),
      if ClearsTemperature(t) then Undefined else Fill(Fill(v.temperature, s.temperature), Number(-1.0)),
      Fill(v.fadeTime, Number(fadeTime)),
      Some(ClearChannels(t, FillChannels(FillChannels(ch, s.channel), ZeroChannels))))
  }

  /** After normalisation a field is undefined exactly when the device type clears it. */
  lemma PreparedDefinedness(t: DeviceType, v: Values, s: StoredValues, fadeTime: real, c: Colour)
    ensures var r := Prepared(t, v, s, fadeTime);
      && !r.isOn.Undefined? && !r.brightness.Undefined? && !r.fadeTime.Undefined? && r.channel.Some?
      && (r.temperature.Undefined? <==> ClearsTemperature(t))
      && (r.channel.value.Get(c).Undefined? <==> ClearsColour(t, c))
  {
  }

  /**
    Fields come from the values object when it defines them, else from the stored values,
    else from the defaults `false`, 100, -1 and 0.
   */
  lemma PreparedFills(t: DeviceType, v: Values, s: StoredValues, fadeTime: real, c: Colour)
    ensures var r := Prepared(t, v, s, fadeTime);
      && r.isOn == (if !v.isOn.Undefined? then v.isOn else if !s.isOn.Undefined? then s.isOn else Bool(false))
      && r.brightness == (if !v.brightness.Undefined? then v.brightness else if !s.brightness.Undefined? then s.brightness else Number(100.0))
      && (!ClearsTemperature(t) ==>
            r.temperature == (if !v.temperature.Undefined? then v.temperature else if !s.temperature.Undefined? then s.temperature else Number(-1.0)))
      && r.fadeTime == (if !v.fadeTime.Undefined? then v.fadeTime else Number(fadeTime))
      && (!ClearsColour(t, c) && !MixApplies(v.temperature) && t != Dimmable ==>
           var given := v.channel.GetOr(NoChannels).Get(c);
           r.channel.value.Get(c) == (if !given.Undefined? then given else if !s.channel.Get(c).Undefined? then s.channel.Get(c) else Number(0.0)))
  {
    var ch := v.channel.GetOr(NoChannels);
    assert Mixed(t, v.temperature, ch) == ch || MixApplies(v.temperature) || t == Dimmable;
  }

  /**
    A temperature within 0..100 sets main to 255 * t / 100 and white to the rest, so main
    and white add up to 255 on a tunable-white device; an RGBW device, whose main channel
    is cleared, carries that value on red, green and blue instead.
   */
  lemma PreparedTemperatureMix(t: DeviceType, v: Values, s: StoredValues, fadeTime: real)
    requires MixApplies(v.temperature)
    ensures var r := Prepared(t, v, s, fadeTime).channel.value;
      var main := 255.0 * (ToNumber(v.temperature).value / 100.0);
      && (t == Tw || t == Rgbtw || t == Untyped ==>
           r.main == Number(main) && r.white == Number(255.0 - main) && r.main.n + r.white.n == 255.0)
      && (t == Rgbw ==>
           r.main == Undefined && r.red == Number(main) && r.green == r.red && r.blue == r.red
           && r.red.n + r.white.n == 255.0)
      && (t == Rgbtw ==> r.red == Fill(Fill(v.channel.GetOr(NoChannels).red, s.channel.red), Number(0.0)))
  {
  }

  /** A dimmable device always drives its main channel at 255, and keeps neither colour nor white nor temperature. */
  lemma PreparedDimmable(v: Values, s: StoredValues, fadeTime: real)
    ensures var r := Prepared(Dimmable, v, s, fadeTime);
      && r.channel.value == Channels(Number(255.0), Undefined, Undefined, Undefined, Undefined)
      && r.temperature == Undefined
  {
  }

  // ---------------------------------------------------------------------------
  // Fade time, brightness and the actions for a device

  /** The setting `getBufferActionFadeTime` leaves behind: a falsy fade time is replaced by -1. */
  function Settled(fadeTime: real): (r: real)
    ensures r != 0.0
    ensures fadeTime != 0.0 ==> r == fadeTime
  {
    if fadeTime == 0.0 then -1.0 else fadeTime
  }

  /** The fade time `getBufferActionFadeTime` returns for a settled setting: -1 selects the configured default. */
  function EffectiveFadeTime(setting: real, defaultFadeTime: real): real {
    if setting == -1.0 then defaultFadeTime else setting
  }

  /**
    Settling is idempotent, so every call after the first changes nothing and returns the
    same fade time: the configured default for a missing (0) or -1 setting, else the setting.
   */
  lemma FadeTimeSettles(fadeTime: real, defaultFadeTime: real)
    ensures Settled(Settled(fadeTime)) == Settled(fadeTime)
    ensures EffectiveFadeTime(Settled(fadeTime), defaultFadeTime)
         == if fadeTime == 0.0 || fadeTime == -1.0 then defaultFadeTime else fadeTime
  {
  }

  /** `getBrightnessMultiplicator`: brightness / 100 while the device is on, 0 while it is off, NaN for no brightness. */
  function BrightnessMultiplicator(v: Values): (r: Option<real>)
    ensures r.None? <==> v.brightness.Undefined?
    ensures r.Some? && !Truthy(v.isOn) ==> r.value == 0.0
    ensures r.Some? && Truthy(v.isOn) ==> r.value * 100.0 == ToNumber(v.brightness).value
  {
    Times(Times(ToNumber(v.brightness), Some(1.0 / 100.0)), Some(if Truthy(v.isOn) then 1.0 else 0.0))
  }

  /** A brightness in 0..100 gives a multiplier in 0..1, so a channel value in 0..255 stays in 0..255. */
  lemma MultiplierScales(v: Values, value: real)
    requires v.brightness.Number? && 0.0 <= v.brightness.n <= 100.0 && 0.0 <= value <= 255.0
    ensures var m := BrightnessMultiplicator(v).value; 0.0 <= m <= 1.0 && 0.0 <= value * m <= 255.0
  {
    var m := BrightnessMultiplicator(v).value;
    assert 0.0 <= m <= 1.0;
    assert value * (1.0 - m) >= 0.0;
    assert value * m <= value;
  }

  /** The request `applyValuesObjectForDevice` hands to `addAction` for colour `c`. */
  function RequestFor(address: int, channelValue: JsValue, mult: Option<real>, fadeTime: real): AB.Request {
    AB.Request(address, "fadeto", Times(ToNumber(channelValue), mult), fadeTime)
  }

  /** The requests for colours `cs`, in order: one FADETO per mapped colour. */
  function Requests(addrs: Addresses, ch: Channels, mult: Option<real>, fadeTime: real, cs: seq<Colour>): (r: seq<AB.Request>)
    ensures |r| <= |cs|
    ensures forall i :: 0 <= i < |r| ==> r[i].action == "fadeto" && r[i].fadeTime == fadeTime
    ensures forall i :: 0 <= i < |r| ==> r[i].channel in addrs.MappedSet()
  {
    if cs == [] then []
    else
      var c := cs[|cs| - 1];
      Requests(addrs, ch, mult, fadeTime, cs[..|cs| - 1])
        + (if Mapped(addrs.Get(c)) then [RequestFor(addrs.Get(c).value, ch.Get(c), mult, fadeTime)] else [])
  }

  /** The number of mapped colours among `cs`. */
  function MappedCount(addrs: Addresses, cs: seq<Colour>): nat {
    if cs == [] then 0
    else MappedCount(addrs, cs[..|cs| - 1]) + (if Mapped(addrs.Get(cs[|cs| - 1])) then 1 else 0)
  }

  /**
    Exactly one request per mapped colour, in colour order: the k-th request goes to the
    address of the k-th mapped colour and carries that colour's value times the multiplier.
   */
  lemma {:induction false} RequestsOnePerMapping(addrs: Addresses, ch: Channels, mult: Option<real>, fadeTime: real, cs: seq<Colour>)
    ensures |Requests(addrs, ch, mult, fadeTime, cs)| == MappedCount(addrs, cs)
    ensures forall i :: 0 <= i < |cs| && Mapped(addrs.Get(cs[i])) ==>
      var k := MappedCount(addrs, cs[..i]);
      k < |Requests(addrs, ch, mult, fadeTime, cs)|
      && Requests(addrs, ch, mult, fadeTime, cs)[k] == RequestFor(addrs.Get(cs[i]).value, ch.Get(cs[i]), mult, fadeTime)
  {
    if cs != [] {
      var init := cs[..|cs| - 1];
      RequestsOnePerMapping(addrs, ch, mult, fadeTime, init);
      var r := Requests(addrs, ch, mult, fadeTime, cs);
      forall i | 0 <= i < |cs| && Mapped(addrs.Get(cs[i]))
        ensures MappedCount(addrs, cs[..i]) < |r|
        ensures r[MappedCount(addrs, cs[..i])] == RequestFor(addrs.Get(cs[i]).value, ch.Get(cs[i]), mult, fadeTime)
      {
        if i < |cs| - 1 {
          assert cs[..i] == init[..i];
          assert init[i] == cs[i];
        } else {
          assert cs[..i] == init;
        }
      }
    }
  }

  /** The table after the requests `reqs` were handed to `addAction` in order. */
  function AdmitAll(table: map<int, AB.Action>, buf: seq<real>, interval: real, reqs: seq<AB.Request>): map<int, AB.Action>
    requires forall i :: 0 <= i < |reqs| ==> reqs[i].channel <= |buf|
  {
    if reqs == [] then table
    else AB.AdmitInto(AdmitAll(table, buf, interval, reqs[..|reqs| - 1]), buf, interval, reqs[|reqs| - 1])
  }

  /** The events those calls emit. */
  function AdmitEvents(reqs: seq<AB.Request>): seq<AB.Event> {
    if reqs == [] then []
    else AdmitEvents(reqs[..|reqs| - 1]) + AB.AdmissionEvents(reqs[|reqs| - 1])
  }

  /**
    A channel index no request addresses keeps its entry in the table, and the last
    admitted request for an index decides its entry.
   */
  lemma {:induction false} AdmitAllLastWins(table: map<int, AB.Action>, buf: seq<real>, interval: real, reqs: seq<AB.Request>, idx: int)
    requires forall i :: 0 <= i < |reqs| ==> reqs[i].channel <= |buf|
    ensures (forall i :: 0 <= i < |reqs| ==> reqs[i].channel - 1 != idx) ==>
      (idx in AdmitAll(table, buf, interval, reqs) <==> idx in table)
      && (idx in table ==> AdmitAll(table, buf, interval, reqs)[idx] == table[idx])
    ensures |reqs| > 0 && reqs[|reqs| - 1].channel - 1 == idx
            && AB.Admitted(reqs[|reqs| - 1]) && AB.KindOf(reqs[|reqs| - 1].action).Some? ==>
      AdmitAll(table, buf, interval, reqs)[idx] == AB.Admission(reqs[|reqs| - 1], buf[idx], interval).value
  {
    if reqs != [] {
      AdmitAllLastWins(table, buf, interval, reqs[..|reqs| - 1], idx);
    }
  }

  /** A mapped colour's request is admitted as a FADETO exactly when its address is above 1 and its value is a number. */
  lemma RequestAdmission(address: int, channelValue: JsValue, mult: Option<real>, fadeTime: real)
    ensures var req := RequestFor(address, channelValue, mult, fadeTime);
      && AB.KindOf(req.action) == Some(AB.FadeTo)
      && (AB.Admitted(req) <==> address > 1 && !channelValue.Undefined? && mult.Some?)
  {
    assert AB.Upper("fadeto") == "FADETO";
  }

  // ---------------------------------------------------------------------------
  // The startup buffer

  /**
    `buf[idx] = v` on a JavaScript array: a negative index adds a property, not an element;
    beyond the end the array grows. JavaScript leaves holes in the gap where the model
    stores 0.0; the difference cannot be seen, since a grown buffer is longer than 512 and
    `setBuffer` rejects it (`StartupBufferTooLong`).
   */
  function StoreAt(buf: seq<real>, idx: int, v: real): (r: seq<real>)
    ensures idx < 0 ==> r == buf
    ensures 0 <= idx < |buf| ==> r == buf[idx := v]
    ensures idx >= |buf| ==> |r| == idx + 1 && r[..|buf|] == buf && r[idx] == v
  {
    if idx < 0 then buf
    else if idx < |buf| then buf[idx := v]
    else buf + seq(idx - |buf|, _ => 0.0) + [v]
  }

  /** The writes one device contributes to the startup buffer, for colours `cs`: index and value. */
  function DeviceWrites(addrs: Addresses, ch: Channels, cs: seq<Colour>): seq<(int, real)> {
    if cs == [] then []
    else
      var c := cs[|cs| - 1];
      DeviceWrites(addrs, ch, cs[..|cs| - 1])
        + (if Mapped(addrs.Get(c)) && ch.Get(c).Number? then [(addrs.Get(c).value - 1, ch.Get(c).n)] else [])
  }

  /** All writes of the devices, in order. */
  function StartupWrites(devices: seq<(Addresses, Channels)>): seq<(int, real)> {
    if devices == [] then []
    else StartupWrites(devices[..|devices| - 1]) + DeviceWrites(devices[|devices| - 1].0, devices[|devices| - 1].1, Colours)
  }

  function ApplyWrites(buf: seq<real>, ws: seq<(int, real)>): seq<real> {
    if ws == [] then buf
    else StoreAt(ApplyWrites(buf, ws[..|ws| - 1]), ws[|ws| - 1].0, ws[|ws| - 1].1)
  }

  /** Applying two runs of writes one after the other is applying their concatenation. */
  lemma {:induction false} ApplyWritesAppend(buf: seq<real>, ws1: seq<(int, real)>, ws2: seq<(int, real)>)
    ensures ApplyWrites(buf, ws1 + ws2) == ApplyWrites(ApplyWrites(buf, ws1), ws2)
  {
    if ws2 != [] {
      var init := ws2[..|ws2| - 1];
      ApplyWritesAppend(buf, ws1, init);
      assert (ws1 + ws2)[..|ws1 + ws2| - 1] == ws1 + init;
    } else {
      assert ws1 + ws2 == ws1;
    }
  }

  function Zeros(): seq<real> { seq(AB.ChannelCount, _ => 0.0) }

  /** `setArtnetActionBufferByDeviceData`'s buffer, before it is handed to `setBuffer`. */
  function StartupBuffer(devices: seq<(Addresses, Channels)>): seq<real> {
    ApplyWrites(Zeros(), StartupWrites(devices))
  }

  /** The value the last write to index `i` stored, or `def` when there is none. */
  function LastWrite(ws: seq<(int, real)>, i: int, def: real): real {
    if ws == [] then def
    else if ws[|ws| - 1].0 == i then ws[|ws| - 1].1
    else LastWrite(ws[..|ws| - 1], i, def)
  }

  /**
    While every write is inside the buffer, the buffer keeps its length and each slot
    holds the value of the last write to it, or its old value.
   */
  lemma {:induction false} ApplyWritesInside(buf: seq<real>, ws: seq<(int, real)>)
    requires forall k :: 0 <= k < |ws| ==> 0 <= ws[k].0 < |buf|
    ensures |ApplyWrites(buf, ws)| == |buf|
    ensures forall i :: 0 <= i < |buf| ==> ApplyWrites(buf, ws)[i] == LastWrite(ws, i, buf[i])
  {
    if ws != [] {
      ApplyWritesInside(buf, ws[..|ws| - 1]);
    }
  }

  /** A write beyond the end lengthens the array, however the other writes go. */
  lemma {:induction false} ApplyWritesGrow(buf: seq<real>, ws: seq<(int, real)>, k: int)
    requires 0 <= k < |ws| && ws[k].0 >= |buf|
    ensures |ApplyWrites(buf, ws)| > |buf|
  {
    ApplyWritesMonotone(buf, ws);
    if k == |ws| - 1 {
      assert |ApplyWrites(buf, ws)| >= ws[k].0 + 1;
    } else {
      ApplyWritesGrow(buf, ws[..|ws| - 1], k);
    }
  }

  lemma {:induction false} ApplyWritesMonotone(buf: seq<real>, ws: seq<(int, real)>)
    ensures |ApplyWrites(buf, ws)| >= |buf|
    ensures ws != [] ==> |ApplyWrites(buf, ws)| >= |ApplyWrites(buf, ws[..|ws| - 1])|
  {
    if ws != [] {
      ApplyWritesMonotone(buf, ws[..|ws| - 1]);
    }
  }

  /**
    `DeviceWrites` writes exactly the mapped colours whose stored value is a number, at
    their address minus one.
   */
  lemma {:induction false} DeviceWritesMembers(addrs: Addresses, ch: Channels, cs: seq<Colour>)
    ensures forall w :: w in DeviceWrites(addrs, ch, cs) <==>
      exists c :: c in cs && Mapped(addrs.Get(c)) && ch.Get(c).Number? && w == (addrs.Get(c).value - 1, ch.Get(c).n)
  {
    if cs != [] {
      DeviceWritesMembers(addrs, ch, cs[..|cs| - 1]);
      var c := cs[|cs| - 1];
      assert cs == cs[..|cs| - 1] + [c];
      forall w ensures w in DeviceWrites(addrs, ch, cs) <==>
        exists d :: d in cs && Mapped(addrs.Get(d)) && ch.Get(d).Number? && w == (addrs.Get(d).value - 1, ch.Get(d).n)
      {
        if w in DeviceWrites(addrs, ch, cs) && !(w in DeviceWrites(addrs, ch, cs[..|cs| - 1])) {
          assert Mapped(addrs.Get(c)) && ch.Get(c).Number? && w == (addrs.Get(c).value - 1, ch.Get(c).n);
        }
      }
    }
  }

  /** Every write to the startup buffer comes from some device's mapped, numeric colour. */
  lemma {:induction false} StartupWritesMembers(devices: seq<(Addresses, Channels)>)
    ensures forall w :: w in StartupWrites(devices) ==>
      exists d, c :: d in devices && Mapped(d.0.Get(c)) && d.1.Get(c).Number? && w == (d.0.Get(c).value - 1, d.1.Get(c).n)
  {
    if devices != [] {
      var init := devices[..|devices| - 1];
      var last := devices[|devices| - 1];
      StartupWritesMembers(init);
      DeviceWritesMembers(last.0, last.1, Colours);
      forall w | w in StartupWrites(devices)
        ensures exists d, c :: d in devices && Mapped(d.0.Get(c)) && d.1.Get(c).Number? && w == (d.0.Get(c).value - 1, d.1.Get(c).n)
      {
        if w in StartupWrites(init) {
          var d, c :| d in init && Mapped(d.0.Get(c)) && d.1.Get(c).Number? && w == (d.0.Get(c).value - 1, d.1.Get(c).n);
          assert d in devices;
        } else {
          assert w in DeviceWrites(last.0, last.1, Colours);
          var c :| c in Colours && Mapped(last.0.Get(c)) && last.1.Get(c).Number? && w == (last.0.Get(c).value - 1, last.1.Get(c).n);
          assert last in devices;
        }
      }
    }
  }

  /** A device predicate: every mapped colour sits on a DMX address 1..512. */
  predicate AddressesInRange(addrs: Addresses) {
    forall c :: Mapped(addrs.Get(c)) ==> 1 <= addrs.Get(c).value <= AB.ChannelCount
  }

  /**
    With every mapped address in 1..512 the startup buffer has 512 slots, and each slot
    holds the last numeric value mapped onto it, or 0.
   */
  lemma StartupBufferShape(devices: seq<(Addresses, Channels)>)
    requires forall k :: 0 <= k < |devices| ==> AddressesInRange(devices[k].0)
    ensures |StartupBuffer(devices)| == AB.ChannelCount
    ensures forall i :: 0 <= i < AB.ChannelCount ==> StartupBuffer(devices)[i] == LastWrite(StartupWrites(devices), i, 0.0)
  {
    var ws := StartupWrites(devices);
    StartupWritesMembers(devices);
    forall k | 0 <= k < |ws| ensures 0 <= ws[k].0 < |Zeros()| {
      assert ws[k] in ws;
      var d, c :| d in devices && Mapped(d.0.Get(c)) && d.1.Get(c).Number? && ws[k] == (d.0.Get(c).value - 1, d.1.Get(c).n);
      var j :| 0 <= j < |devices| && devices[j] == d;
      assert AddressesInRange(devices[j].0);
    }
    ApplyWritesInside(Zeros(), ws);
  }

  /** A mapped address above 512 with a numeric value lengthens the startup buffer, which `setBuffer` then rejects. */
  lemma StartupBufferTooLong(devices: seq<(Addresses, Channels)>, k: int, c: Colour)
    requires 0 <= k < |devices| && Mapped(devices[k].0.Get(c)) && devices[k].0.Get(c).value > AB.ChannelCount
    requires devices[k].1.Get(c).Number?
    ensures |StartupBuffer(devices)| > AB.ChannelCount
    ensures AB.BufferCheck(Some(StartupBuffer(devices))) == Some(AB.InvalidBufferShape)
  {
    var d := devices[k];
    var w := (d.0.Get(c).value - 1, d.1.Get(c).n);
    StartupWritesContain(devices, k, c);
    var ws := StartupWrites(devices);
    var j :| 0 <= j < |ws| && ws[j] == w;
    ApplyWritesGrow(Zeros(), ws, j);
  }

  lemma {:induction false} StartupWritesContain(devices: seq<(Addresses, Channels)>, k: int, c: Colour)
    requires 0 <= k < |devices| && Mapped(devices[k].0.Get(c)) && devices[k].1.Get(c).Number?
    ensures (devices[k].0.Get(c).value - 1, devices[k].1.Get(c).n) in StartupWrites(devices)
  {
    var init := devices[..|devices| - 1];
    if k < |devices| - 1 {
      assert init[k] == devices[k];
      StartupWritesContain(init, k, c);
    } else {
      DeviceWritesMembers(devices[k].0, devices[k].1, Colours);
      assert c in Colours by { assert c == Colours[if c == Main then 0 else if c == Red then 1 else if c == Green then 2 else if c == Blue then 3 else 4]; }
    }
  }

  // ---------------------------------------------------------------------------
  // State ids

  /** The number of dot-separated segments that form a device id ("adapter.instance.lights.device"). */
  const DeviceIdSegments: nat := 4

  /** `getDeviceIdFromStateId`: the first four segments, rejoined. */
  function GetDeviceId(stateId: string): string {
    var parts := Split(stateId, '.');
    Join(parts[..if |parts| < DeviceIdSegments then |parts| else DeviceIdSegments], '.')
  }

  /** `substring(start, end)` for `0 <= end`: both ends clamped to the length, swapped if reversed. */
  function Substring(s: string, start: int, end: int): (r: string)
    requires 0 <= end
  {
    var a := if start < 0 then 0 else if start > |s| then |s| else start;
    var b := if end > |s| then |s| else end;
    if a <= b then s[a..b] else s[b..a]
  }

  /** `getDeviceStateKeyFromStateId`: what follows the device id and one separator. */
  function GetDeviceStateKey(stateId: string): string {
    Substring(stateId, |GetDeviceId(stateId)| + 1, |stateId|)
  }

  /**
    A state id with more than four segments is its device id, a dot and its state key;
    one with at most four is its own device id and has an empty key.
   */
  lemma StateIdSplits(stateId: string)
    ensures |Split(stateId, '.')| > DeviceIdSegments ==>
      GetDeviceId(stateId) + "." + GetDeviceStateKey(stateId) == stateId
    ensures |Split(stateId, '.')| <= DeviceIdSegments ==>
      GetDeviceId(stateId) == stateId && GetDeviceStateKey(stateId) == ""
  {
    var parts := Split(stateId, '.');
    JoinSplit(stateId, '.');
    if |parts| > DeviceIdSegments {
      var head, tail := parts[..DeviceIdSegments], parts[DeviceIdSegments..];
      assert parts == head + tail;
      JoinAppend(head, tail, '.');
      var id := Join(head, '.');
      assert stateId == id + ['.'] + Join(tail, '.');
      assert GetDeviceStateKey(stateId) == stateId[|id| + 1..];
      assert stateId[|id| + 1..] == Join(tail, '.');
    } else {
      assert parts[..|parts|] == parts;
    }
  }

  /** The device id of a state id is a device id of its own: applying it again changes nothing. */
  lemma DeviceIdIdempotent(stateId: string)
    ensures GetDeviceId(GetDeviceId(stateId)) == GetDeviceId(stateId)
  {
    var parts := Split(stateId, '.');
    var k := if |parts| < DeviceIdSegments then |parts| else DeviceIdSegments;
    var head := parts[..k];
    assert |head| >= 1;
    forall i | 0 <= i < |head| ensures '.' !in head[i] {
      assert head[i] == parts[i];
    }
    SplitJoin(head, '.');
    assert head[..|head|] == head;
  }

  // ---------------------------------------------------------------------------
  // State lookup

  /** An entry of a states object: a state with a value, or `null`. */
  datatype StateEntry = NullState | State(val: JsValue)

  function FullKey(path: string, key: string): string {
    if path != "" then path + "." + key else key
  }

  /** `getStateValueFromStatesObject`: the value of the state at `path.key` (or `key` for an empty path), else the default. */
  function GetStateValue(states: map<string, StateEntry>, path: string, key: string, def: JsValue): (r: JsValue)
    ensures FullKey(path, key) in states && states[FullKey(path, key)].State? ==> r == states[FullKey(path, key)].val
    ensures FullKey(path, key) !in states || states[FullKey(path, key)].NullState? ==> r == def
  {
    var fullKey := FullKey(path, key);
    if fullKey in states && states[fullKey].State? then states[fullKey].val else def
  }

  /** Looking a state up by the device id and state key split off its id finds that very state. */
  lemma StateLookupBySplitId(states: map<string, StateEntry>, stateId: string, def: JsValue)
    requires |Split(stateId, '.')| > DeviceIdSegments
    ensures GetStateValue(states, GetDeviceId(stateId), GetDeviceStateKey(stateId), def)
         == if stateId in states && states[stateId].State? then states[stateId].val else def
  {
    StateIdSplits(stateId);
    assert GetDeviceId(stateId) != "" by {
      var parts := Split(stateId, '.');
      assert GetDeviceId(stateId) + "." + GetDeviceStateKey(stateId) == stateId;
      if GetDeviceId(stateId) == "" {
        JoinNonEmptyParts(parts[..DeviceIdSegments], '.');
      }
    }
  }

  /** Joining two or more parts yields a separator, so the result is not empty. */
  lemma JoinNonEmptyParts(parts: seq<string>, c: char)
    requires |parts| >= 2
    ensures Join(parts, c) != ""
  {
  }
}
