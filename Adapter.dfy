/**
  The adapter's device handling in main.js that changes state in place: picking (and
  settling) a device's fade time, normalising a values object, handing a device's
  values to the action buffer and updating the device's value cache, and building the
  startup channel buffer from every device.
 */
module Adapter {
  import opened Wrappers
  import opened DeviceValues
  import AB = ActionBuffer

  // ---------------------------------------------------------------------------
  // The value cache, on values

  /** The value paths `applyValuesObjectForDevice` synchronises. */
  datatype Field = IsOn | Brightness | Temperature | ChannelValue(colour: Colour)

  function ColourKey(c: Colour): string {
    match c
    case Main => "main"
    case Red => "red"
    case Green => "green"
    case Blue => "blue"
    case White => "white"
  }

  /** The path string of a field, as listed in `_propKeyArrayChanged`. */
  function FieldPath(f: Field): string {
    match f
    case IsOn => "isOn"
    case Brightness => "brightness"
    case Temperature => "temperature"
    case ChannelValue(c) => "channel." + ColourKey(c)
  }

  /** The fields in the order `applyValuesObjectForDevice` synchronises them. */
  const SyncedFields: seq<Field> :=
    [IsOn, Brightness, Temperature, ChannelValue(Main), ChannelValue(Red), ChannelValue(Green),
     ChannelValue(Blue), ChannelValue(White)]

  /** The id of the state that mirrors a field of device `id`. */
  function StatePath(id: string, f: Field): string {
    id + ".values." + FieldPath(f)
  }

  /** The field of a device's stored values. */
  function Stored(s: StoredValues, f: Field): JsValue {
    match f
    case IsOn => s.isOn
    case Brightness => s.brightness
    case Temperature => s.temperature
    case ChannelValue(c) => s.channel.Get(c)
  }

  /** The field of a values object; a missing `channel` object leaves every channel undefined. */
  function Given(v: Values, f: Field): JsValue {
    match f
    case IsOn => v.isOn
    case Brightness => v.brightness
    case Temperature => v.temperature
    case ChannelValue(c) => if v.channel.Some? then v.channel.value.Get(c) else Undefined
  }

  /** The stored values with one field replaced. */
  function Store(s: StoredValues, f: Field, x: JsValue): (r: StoredValues)
    ensures Stored(r, f) == x
    ensures forall g :: g != f ==> Stored(r, g) == Stored(s, g)
  {
    match f
    case IsOn => s.(isOn := x)
    case Brightness => s.(brightness := x)
    case Temperature => s.(temperature := x)
    case ChannelValue(c) =>
      match c
      case Main => s.(channel := s.channel.(main := x))
      case Red => s.(channel := s.channel.(red := x))
      case Green => s.(channel := s.channel.(green := x))
      case Blue => s.(channel := s.channel.(blue := x))
      case White => s.(channel := s.channel.(white := x))
  }

  /** A field whose update throws: it is to be written (it differs, or is forced) but the device has no such key. */
  predicate Throws(s: StoredValues, v: Values, f: Field, force: bool) {
    Stored(s, f).Undefined? && (!LooseEquals(Undefined, Given(v, f)) || force)
  }

  /** The result of synchronising fields: new stored values, whether an error escaped, and the states written. */
  datatype Outcome = Outcome(values: StoredValues, threw: bool, writes: seq<(string, JsValue)>)

  /**
    `applyValuesObjectForDeviceOnPath` on values: a field that differs loosely, or is
    forced, is copied into the cache and its state is written unless the new value is
    `null` or `undefined`; copying into a key the device lacks throws instead.
   */
  function SyncField(id: string, s: StoredValues, v: Values, f: Field, force: bool): (r: Outcome)
    ensures r.threw <==> Throws(s, v, f, force)
    ensures r.threw ==> r.values == s && r.writes == []
    ensures !r.threw ==> LooseEquals(Stored(r.values, f), Given(v, f))
    ensures !r.threw && force ==> Stored(r.values, f) == Given(v, f)
  {
    var current := Stored(s, f);
    var given := Given(v, f);
    if !LooseEquals(current, given) || force then
      if current.Undefined? then Outcome(s, true, [])
      else Outcome(Store(s, f, given), false, if LooseEquals(given, Undefined) then [] else [(StatePath(id, f), given)])
    else Outcome(s, false, [])
  }

  /** Synchronising a field touches no other field, and writes at most that field's state, with a value that is not nullish. */
  lemma SyncFieldFrame(id: string, s: StoredValues, v: Values, f: Field, force: bool)
    ensures var r := SyncField(id, s, v, f, force);
      && (forall g :: g != f ==> Stored(r.values, g) == Stored(s, g))
      && |r.writes| <= 1
      && forall k :: 0 <= k < |r.writes| ==>
           r.writes[k] == (StatePath(id, f), Given(v, f)) && !LooseEquals(Given(v, f), Undefined)
  {
  }

  /** One more field after `o`, unless an error already escaped. */
  function Then(o: Outcome, id: string, v: Values, f: Field, changed: seq<string>): Outcome {
    if o.threw then o
    else
      var n := SyncField(id, o.values, v, f, FieldPath(f) in changed);
      Outcome(n.values, n.threw, o.writes + n.writes)
  }

  /** The fields `fs` synchronised in order, stopping at the first error; fields named in `changed` are forced. */
  function Sync(id: string, s: StoredValues, v: Values, fs: seq<Field>, changed: seq<string>): Outcome {
    if fs == [] then Outcome(s, false, [])
    else Then(Sync(id, s, v, fs[..|fs| - 1], changed), id, v, fs[|fs| - 1], changed)
  }

  predicate Distinct(fs: seq<Field>) {
    forall i, j :: 0 <= i < j < |fs| ==> fs[i] != fs[j]
  }

  /** Once an error escaped, later fields change nothing. */
  lemma {:induction false} SyncAfterThrow(id: string, s: StoredValues, v: Values, fs: seq<Field>, changed: seq<string>, k: nat)
    requires k <= |fs| && (Sync(id, s, v, fs[..k], changed).threw || k == |fs|)
    ensures Sync(id, s, v, fs, changed) == Sync(id, s, v, fs[..k], changed)
  {
    if k < |fs| {
      assert fs[..|fs| - 1][..k] == fs[..k];
      SyncAfterThrow(id, s, v, fs[..|fs| - 1], changed, k);
    } else {
      assert fs[..k] == fs;
    }
  }

  /**
    After a run without error every synchronised field agrees loosely with the values
    object, and a forced field holds exactly its value; fields not synchronised keep
    their stored value.
   */
  lemma {:induction false} SyncAgrees(id: string, s: StoredValues, v: Values, fs: seq<Field>, changed: seq<string>)
    requires Distinct(fs)
    ensures var r := Sync(id, s, v, fs, changed);
      !r.threw ==> forall i :: 0 <= i < |fs| ==>
        && LooseEquals(Stored(r.values, fs[i]), Given(v, fs[i]))
        && (FieldPath(fs[i]) in changed ==> Stored(r.values, fs[i]) == Given(v, fs[i]))
    ensures var r := Sync(id, s, v, fs, changed);
      forall g :: g !in fs ==> Stored(r.values, g) == Stored(s, g)
  {
    if fs != [] {
      var init, last := fs[..|fs| - 1], fs[|fs| - 1];
      assert Distinct(init);
      SyncAgrees(id, s, v, init, changed);
      var p := Sync(id, s, v, init, changed);
      var r := Sync(id, s, v, fs, changed);
      SyncFieldFrame(id, p.values, v, last, FieldPath(last) in changed);
      forall g | g !in fs ensures Stored(r.values, g) == Stored(s, g) {
        assert g !in init;
      }
      if !r.threw {
        forall i | 0 <= i < |fs|
          ensures LooseEquals(Stored(r.values, fs[i]), Given(v, fs[i]))
          ensures FieldPath(fs[i]) in changed ==> Stored(r.values, fs[i]) == Given(v, fs[i])
        {
          if i < |fs| - 1 {
            assert fs[i] == init[i] && fs[i] != last;
          }
        }
      }
    }
  }

  /**
    With distinct fields, a run throws exactly when some field throws on the stored
    values as they were before the run.
   */
  lemma {:induction false} SyncThrows(id: string, s: StoredValues, v: Values, fs: seq<Field>, changed: seq<string>)
    requires Distinct(fs)
    ensures Sync(id, s, v, fs, changed).threw <==>
      exists i :: 0 <= i < |fs| && Throws(s, v, fs[i], FieldPath(fs[i]) in changed)
  {
    if fs != [] {
      var init, last := fs[..|fs| - 1], fs[|fs| - 1];
      assert Distinct(init);
      SyncThrows(id, s, v, init, changed);
      SyncAgrees(id, s, v, init, changed);
      var p := Sync(id, s, v, init, changed);
      assert last !in init;
      assert Stored(p.values, last) == Stored(s, last);
      if exists i :: 0 <= i < |fs| && Throws(s, v, fs[i], FieldPath(fs[i]) in changed) {
        var i :| 0 <= i < |fs| && Throws(s, v, fs[i], FieldPath(fs[i]) in changed);
        if i < |fs| - 1 {
          assert init[i] == fs[i];
        }
      }
      if p.threw {
        var i :| 0 <= i < |init| && Throws(s, v, init[i], FieldPath(init[i]) in changed);
        assert fs[i] == init[i];
      }
    }
  }

  /** Every state written is the state of a synchronised field, with that field's new value, and never `null` or `undefined`. */
  lemma {:induction false} SyncWrites(id: string, s: StoredValues, v: Values, fs: seq<Field>, changed: seq<string>)
    ensures var w := Sync(id, s, v, fs, changed).writes;
      |w| <= |fs| &&
      forall k :: 0 <= k < |w| ==>
        !LooseEquals(w[k].1, Undefined) && exists i :: 0 <= i < |fs| && w[k] == (StatePath(id, fs[i]), Given(v, fs[i]))
  {
    if fs != [] {
      var init := fs[..|fs| - 1];
      SyncWrites(id, s, v, init, changed);
      var p := Sync(id, s, v, init, changed);
      var w := Sync(id, s, v, fs, changed).writes;
      SyncFieldFrame(id, p.values, v, fs[|fs| - 1], FieldPath(fs[|fs| - 1]) in changed);
      forall k | 0 <= k < |w|
        ensures !LooseEquals(w[k].1, Undefined) && exists i :: 0 <= i < |fs| && w[k] == (StatePath(id, fs[i]), Given(v, fs[i]))
      {
        if k < |p.writes| {
          var i :| 0 <= i < |init| && p.writes[k] == (StatePath(id, init[i]), Given(v, init[i]));
          assert fs[i] == init[i];
        } else {
          assert w[k] == (StatePath(id, fs[|fs| - 1]), Given(v, fs[|fs| - 1]));
        }
      }
    }
  }

  /** The fields the normalisation of a device type clears. */
  predicate ClearsField(t: DeviceType, f: Field) {
    match f
    case IsOn => false
    case Brightness => false
    case Temperature => ClearsTemperature(t)
    case ChannelValue(c) => ClearsColour(t, c)
  }

  lemma SyncedFieldsDistinct()
    ensures Distinct(SyncedFields)
    ensures forall f :: f in SyncedFields
  {
    forall f ensures f in SyncedFields {
      if f.ChannelValue? {
        match f.colour
        case Main => assert f == SyncedFields[3];
        case Red => assert f == SyncedFields[4];
        case Green => assert f == SyncedFields[5];
        case Blue => assert f == SyncedFields[6];
        case White => assert f == SyncedFields[7];
      } else {
        assert f == SyncedFields[0] || f == SyncedFields[1] || f == SyncedFields[2];
      }
    }
  }

  /**
    Applying a normalised values object never throws on a device that has a cached
    value for every field its type keeps and for every cleared field that is forced;
    afterwards the cache agrees with the normalised object on every field.
   */
  lemma PreparedApplyDoesNotThrow(id: string, t: DeviceType, v: Values, s: StoredValues, fadeTime: real, changed: seq<string>)
    requires forall f :: !ClearsField(t, f) || FieldPath(f) in changed ==> !Stored(s, f).Undefined?
    ensures var p := Prepared(t, v, s, fadeTime);
      var r := Sync(id, s, p, SyncedFields, changed);
      && !r.threw
      && forall f :: LooseEquals(Stored(r.values, f), Given(p, f))
  {
    var p := Prepared(t, v, s, fadeTime);
    SyncedFieldsDistinct();
    SyncThrows(id, s, p, SyncedFields, changed);
    forall i | 0 <= i < |SyncedFields| ensures !Throws(s, p, SyncedFields[i], FieldPath(SyncedFields[i]) in changed) {
      var f := SyncedFields[i];
      if ClearsField(t, f) && FieldPath(f) !in changed {
        match f
        case IsOn =>
        case Brightness =>
        case Temperature => PreparedDefinedness(t, v, s, fadeTime, Main);
        case ChannelValue(c) => PreparedDefinedness(t, v, s, fadeTime, c);
      }
    }
    SyncAgrees(id, s, p, SyncedFields, changed);
    var r := Sync(id, s, p, SyncedFields, changed);
    forall f ensures LooseEquals(Stored(r.values, f), Given(p, f)) {
      assert f in SyncedFields;
      var i :| 0 <= i < |SyncedFields| && SyncedFields[i] == f;
    }
  }

  // ---------------------------------------------------------------------------
  // Objects

  /** A device object: its settings (type, channel mapping, fade time) and its cached values. */
  class Device {
    const id: string
    const deviceType: DeviceType
    const addresses: Addresses
    var fadeTime: real
    var values: StoredValues

    constructor (id: string, typeName: string, addresses: Addresses, fadeTime: real, values: StoredValues)
      ensures this.id == id && deviceType == TypeOf(typeName) && this.addresses == addresses
      ensures this.fadeTime == fadeTime && this.values == values
    {
      this.id := id;
      deviceType := TypeOf(typeName);
      this.addresses := addresses;
      this.fadeTime := fadeTime;
      this.values := values;
    }
  }

  /** A values object, whose properties normalisation rewrites one by one. */
  class ValuesObject {
    var isOn: JsValue
    var brightness: JsValue
    var temperature: JsValue
    var fadeTime: JsValue
    var channel: Option<Channels>

    function Snapshot(): Values
      reads this
    {
      Values(isOn, brightness, temperature, fadeTime, channel)
    }

    constructor (v: Values)
      ensures Snapshot() == v
    {
      isOn, brightness, temperature, fadeTime, channel := v.isOn, v.brightness, v.temperature, v.fadeTime, v.channel;
    }
  }

  /** The address and channel values of each device, in order. */
  function Mappings(ds: seq<Device>): (r: seq<(Addresses, Channels)>)
    reads set i | 0 <= i < |ds| :: ds[i]
    ensures |r| == |ds|
    ensures forall i :: 0 <= i < |ds| ==> r[i] == (ds[i].addresses, ds[i].values.channel)
  {
    if ds == [] then []
    else Mappings(ds[..|ds| - 1]) + [(ds[|ds| - 1].addresses, ds[|ds| - 1].values.channel)]
  }

  /** The adapter: its configured default fade time, its action buffer (`null` before start), its devices, and the states it has written. */
  class ArtnetDmx {
    const defaultFadeTime: real
    var actionBuffer: AB.ArtnetActionBuffer?
    var devices: seq<Device>
    ghost var stateWrites: seq<(string, JsValue)>

    constructor (defaultFadeTime: real, devices: seq<Device>)
      ensures this.defaultFadeTime == defaultFadeTime && this.devices == devices
      ensures actionBuffer == null && stateWrites == []
    {
      this.defaultFadeTime := defaultFadeTime;
      this.devices := devices;
      actionBuffer := null;
      stateWrites := [];
    }

    /** `getBufferActionFadeTime`: settles a falsy setting to -1, which stands for the configured default. */
    method GetBufferActionFadeTime(device: Device) returns (ft: real)
      modifies device`fadeTime
      ensures device.fadeTime == Settled(old(device.fadeTime))
      ensures ft == EffectiveFadeTime(device.fadeTime, defaultFadeTime)
    {
      if device.fadeTime == 0.0 {
        device.fadeTime := -1.0;
      }
      ft := if device.fadeTime == -1.0 then defaultFadeTime else device.fadeTime;
    }

    /**
      `prepareValuesObjectForDevice`: rewrites `vo` in place into the normalised values
      of `Prepared`; the device's fade time is consulted, and settled, only when `vo` has none.
     */
    method PrepareValuesObjectForDevice(device: Device, vo: ValuesObject)
      modifies vo, device`fadeTime
      ensures vo.Snapshot() == Prepared(device.deviceType, old(vo.Snapshot()), device.values,
                                        EffectiveFadeTime(Settled(old(device.fadeTime)), defaultFadeTime))
      ensures device.fadeTime == if old(vo.fadeTime).Undefined? then Settled(old(device.fadeTime)) else old(device.fadeTime)
    {
      MixChannels(device.deviceType, vo);
      FillFromDevice(device, vo);
      FillDefaults(vo);
      ClearUnused(device.deviceType, vo);
    }

    /** The first step: an empty `channel` object if there is none, the temperature mix, and the fixed main of a dimmable device. */
    static method MixChannels(t: DeviceType, vo: ValuesObject)
      modifies vo`channel
      ensures vo.channel == Some(Mixed(t, vo.temperature, old(vo.channel).GetOr(NoChannels)))
    {
      vo.channel := Some(if vo.channel.Some? then vo.channel.value else NoChannels);
      var temp := ToNumber(vo.temperature);
      if !vo.temperature.Undefined? && temp.Some? && 0.0 <= temp.value && temp.value <= 100.0 {
        vo.channel := Some(vo.channel.value.(main := Number(255.0 * (temp.value / 100.0))));
        vo.channel := Some(vo.channel.value.(white := Number(255.0 - vo.channel.value.main.n)));
        if t == Rgbw {
          var main := vo.channel.value.main;
          vo.channel := Some(vo.channel.value.(red := main, green := main, blue := main));
        }
      }
      if t == Dimmable {
        vo.channel := Some(vo.channel.value.(main := Number(255.0)));
      }
    }

    /** The second step: every field `vo` leaves undefined is taken from the device's stored values, the fade time from the device's setting. */
    method FillFromDevice(device: Device, vo: ValuesObject)
      requires vo.channel.Some?
      modifies vo, device`fadeTime
      ensures vo.isOn == Fill(old(vo.isOn), device.values.isOn)
      ensures vo.brightness == Fill(old(vo.brightness), device.values.brightness)
      ensures vo.temperature == Fill(old(vo.temperature), device.values.temperature)
      ensures vo.fadeTime == Fill(old(vo.fadeTime), Number(EffectiveFadeTime(Settled(old(device.fadeTime)), defaultFadeTime)))
      ensures vo.channel == Some(FillChannels(old(vo.channel).value, device.values.channel))
      ensures device.fadeTime == if old(vo.fadeTime).Undefined? then Settled(old(device.fadeTime)) else old(device.fadeTime)
    {
      var s := device.values;
      vo.isOn := Fill(vo.isOn, s.isOn);
      vo.brightness := Fill(vo.brightness, s.brightness);
      vo.temperature := Fill(vo.temperature, s.temperature);
      if vo.fadeTime.Undefined? {
        var ft := GetBufferActionFadeTime(device);
        vo.fadeTime := Number(ft);
      }
      var ch := vo.channel.value;
      vo.channel := Some(Channels(Fill(ch.main, s.channel.main), Fill(ch.red, s.channel.red),
                                  Fill(ch.green, s.channel.green), Fill(ch.blue, s.channel.blue),
                                  Fill(ch.white, s.channel.white)));
    }

    /** The third step, repairing devices with undefined values: `false`, 100, -1 and 0 for whatever is still undefined. */
    static method FillDefaults(vo: ValuesObject)
      requires vo.channel.Some?
      modifies vo
      ensures vo.isOn == Fill(old(vo.isOn), Bool(false))
      ensures vo.brightness == Fill(old(vo.brightness), Number(100.0))
      ensures vo.temperature == Fill(old(vo.temperature), Number(-1.0))
      ensures vo.fadeTime == old(vo.fadeTime)
      ensures vo.channel == Some(FillChannels(old(vo.channel).value, ZeroChannels))
    {
      vo.isOn := Fill(vo.isOn, Bool(false));
      vo.brightness := Fill(vo.brightness, Number(100.0));
      vo.temperature := Fill(vo.temperature, Number(-1.0));
      var ch := vo.channel.value;
      vo.channel := Some(Channels(Fill(ch.main, Number(0.0)), Fill(ch.red, Number(0.0)),
                                  Fill(ch.green, Number(0.0)), Fill(ch.blue, Number(0.0)),
                                  Fill(ch.white, Number(0.0))));
    }

    /** The last step: the fields the device type has no state for become undefined. */
    static method ClearUnused(t: DeviceType, vo: ValuesObject)
      requires vo.channel.Some?
      modifies vo`temperature, vo`channel
      ensures vo.temperature == if ClearsTemperature(t) then Undefined else old(vo.temperature)
      ensures vo.channel == Some(ClearChannels(t, old(vo.channel).value))
    {
      vo.temperature := if ClearsTemperature(t) then Undefined else vo.temperature;
      var ch := vo.channel.value;
      vo.channel := Some(Channels(if ClearsMain(t) then Undefined else ch.main,
                                  if ClearsRgb(t) then Undefined else ch.red,
                                  if ClearsRgb(t) then Undefined else ch.green,
                                  if ClearsRgb(t) then Undefined else ch.blue,
                                  if ClearsWhite(t) then Undefined else ch.white));
    }

    /**
      `applyValuesObjectForDeviceOnPath`: copies one field of `vo` into the device's
      cache when it differs loosely or is forced, and writes its state; a key the
      device lacks throws.
     */
    method ApplyValuesObjectForDeviceOnPath(device: Device, vo: ValuesObject, f: Field, force: bool) returns (threw: bool)
      modifies device`values, this`stateWrites
      ensures var o := SyncField(device.id, old(device.values), vo.Snapshot(), f, force);
        device.values == o.values && threw == o.threw && stateWrites == old(stateWrites) + o.writes
    {
      var devicePathValue := Stored(device.values, f);
      var valuesPathValue := Given(vo.Snapshot(), f);
      threw := false;
      if !LooseEquals(devicePathValue, valuesPathValue) || force {
        if devicePathValue.Undefined? {
          threw := true;
          return;
        }
        device.values := Store(device.values, f, valuesPathValue);
        if !LooseEquals(valuesPathValue, Undefined) {
          stateWrites := stateWrites + [(StatePath(device.id, f), valuesPathValue)];
        }
      }
    }

    /**
      `applyValuesObjectForDevice`: one FADETO request per mapped colour goes to the
      action buffer, in colour order, then the eight fields are synchronised into the
      device's cache until one throws.
     */
    method ApplyValuesObjectForDevice(device: Device, vo: ValuesObject, changed: seq<string>) returns (threw: bool)
      requires actionBuffer != null && actionBuffer.Valid()
      requires vo.channel.Some?
      requires forall a :: a in device.addresses.MappedSet() ==> a <= AB.ChannelCount
      modifies actionBuffer`actions, actionBuffer`events, device`fadeTime, device`values, this`stateWrites
      ensures actionBuffer.Valid()
      ensures var reqs := Requests(device.addresses, vo.channel.value, BrightnessMultiplicator(vo.Snapshot()),
                                   EffectiveFadeTime(Settled(old(device.fadeTime)), defaultFadeTime), Colours);
        && actionBuffer.actions == AdmitAll(old(actionBuffer.actions), actionBuffer.buffer[..], actionBuffer.bufferUpdateInterval, reqs)
        && actionBuffer.events == old(actionBuffer.events) + AdmitEvents(reqs)
      ensures device.fadeTime == if MappedCount(device.addresses, Colours) > 0 then Settled(old(device.fadeTime)) else old(device.fadeTime)
      ensures var o := Sync(device.id, old(device.values), vo.Snapshot(), SyncedFields, changed);
        device.values == o.values && threw == o.threw && stateWrites == old(stateWrites) + o.writes
    {
      AddDeviceActions(device, vo);
      threw := SyncDeviceValues(device, vo, changed);
    }

    /** The action loop of `applyValuesObjectForDevice`. */
    method AddDeviceActions(device: Device, vo: ValuesObject)
      requires actionBuffer != null && actionBuffer.Valid()
      requires vo.channel.Some?
      requires forall a :: a in device.addresses.MappedSet() ==> a <= AB.ChannelCount
      modifies actionBuffer`actions, actionBuffer`events, device`fadeTime
      ensures actionBuffer.Valid()
      ensures var reqs := Requests(device.addresses, vo.channel.value, BrightnessMultiplicator(vo.Snapshot()),
                                   EffectiveFadeTime(Settled(old(device.fadeTime)), defaultFadeTime), Colours);
        && actionBuffer.actions == AdmitAll(old(actionBuffer.actions), actionBuffer.buffer[..], actionBuffer.bufferUpdateInterval, reqs)
        && actionBuffer.events == old(actionBuffer.events) + AdmitEvents(reqs)
      ensures device.fadeTime == if MappedCount(device.addresses, Colours) > 0 then Settled(old(device.fadeTime)) else old(device.fadeTime)
    {
      var ab := actionBuffer;
      var brightnessMultiplicator := BrightnessMultiplicator(vo.Snapshot());
      ghost var ft0, a0, e0 := device.fadeTime, ab.actions, ab.events;
      ghost var fadeTime := EffectiveFadeTime(Settled(ft0), defaultFadeTime);
      ghost var ch := vo.channel.value;
      AdmittedStart(device.addresses, ch, brightnessMultiplicator, fadeTime, ft0, a0, e0, ab.buffer[..], ab.bufferUpdateInterval);
      for j := 0 to |Colours|
        invariant ab.Valid()
        invariant AdmittedUpTo(device.addresses, ch, brightnessMultiplicator, fadeTime, ft0, a0, e0, ab.buffer[..], ab.bufferUpdateInterval,
                               j, ab.actions, ab.events, device.fadeTime)
      {
        AddColourAction(device, vo, brightnessMultiplicator, ft0, a0, e0, j);
      }
      assert Colours[..|Colours|] == Colours;
    }

    /** One iteration of the action loop: the request of colour `Colours[j]`, when it is mapped. */
    method AddColourAction(device: Device, vo: ValuesObject, mult: Option<real>,
                           ghost ft0: real, ghost a0: map<int, AB.Action>, ghost e0: seq<AB.Event>, j: nat)
      requires actionBuffer != null && actionBuffer.Valid() && vo.channel.Some? && j < |Colours|
      requires AdmittedUpTo(device.addresses, vo.channel.value, mult, EffectiveFadeTime(Settled(ft0), defaultFadeTime), ft0, a0, e0,
                            actionBuffer.buffer[..], actionBuffer.bufferUpdateInterval, j, actionBuffer.actions, actionBuffer.events, device.fadeTime)
      modifies actionBuffer`actions, actionBuffer`events, device`fadeTime
      ensures actionBuffer.Valid()
      ensures AdmittedUpTo(device.addresses, vo.channel.value, mult, EffectiveFadeTime(Settled(ft0), defaultFadeTime), ft0, a0, e0,
                           actionBuffer.buffer[..], actionBuffer.bufferUpdateInterval, j + 1, actionBuffer.actions, actionBuffer.events, device.fadeTime)
    {
      var ab := actionBuffer;
      var c := Colours[j];
      var address := device.addresses.Get(c);
      ghost var a, e, ft1 := ab.actions, ab.events, device.fadeTime;
      if Mapped(address) {
        var ft := GetBufferActionFadeTime(device);
        var req := AB.Request(address.value, "fadeto", Times(ToNumber(vo.channel.value.Get(c)), mult), ft);
        AdmittedStepMapped(device.addresses, vo.channel.value, mult, EffectiveFadeTime(Settled(ft0), defaultFadeTime), ft0, a0, e0,
                           ab.buffer[..], ab.bufferUpdateInterval, j, a, e, ft1, defaultFadeTime, req);
        ab.AddAction(req);
      } else {
        AdmittedStepUnmapped(device.addresses, vo.channel.value, mult, EffectiveFadeTime(Settled(ft0), defaultFadeTime), ft0, a0, e0,
                             ab.buffer[..], ab.bufferUpdateInterval, j, a, e, ft1);
      }
    }

    /**
      The eight cache updates of `applyValuesObjectForDevice`, made in the order of
      `SyncedFields`, each forced when its path is listed in `changed`; an update that
      throws ends the sequence.
     */
    method SyncDeviceValues(device: Device, vo: ValuesObject, changed: seq<string>) returns (threw: bool)
      modifies device`values, this`stateWrites
      ensures var o := Sync(device.id, old(device.values), vo.Snapshot(), SyncedFields, changed);
        device.values == o.values && threw == o.threw && stateWrites == old(stateWrites) + o.writes
    {
      ghost var s0, w0 := device.values, stateWrites;
      SyncStart(device.id, s0, vo.Snapshot(), changed, w0);
      threw := false;
      var k := 0;
      while k < |SyncedFields| && !threw
        invariant 0 <= k <= |SyncedFields|
        invariant SyncedTo(device.id, s0, vo.Snapshot(), changed, w0, k, device.values, threw, stateWrites)
      {
        var f := SyncedFields[k];
        ghost var b, ws := device.values, stateWrites;
        threw := ApplyValuesObjectForDeviceOnPath(device, vo, f, FieldPath(f) in changed);
        SyncStep(device.id, s0, vo.Snapshot(), changed, w0, k + 1, f, FieldPath(f) in changed, b, ws);
        k := k + 1;
      }
      SyncAfterThrow(device.id, s0, vo.Snapshot(), SyncedFields, changed, k);
    }

    /**
      `setArtnetActionBufferByDeviceData`: with an action buffer, builds the startup
      buffer from every device and hands it to `setBuffer`, which rejects it when an
      address beyond 512 lengthened it.
     */
    method SetArtnetActionBufferByDeviceData()
      requires actionBuffer != null ==> actionBuffer.Valid()
      modifies actionBuffer
      ensures actionBuffer != null ==>
        var buf := StartupBuffer(Mappings(devices));
        && actionBuffer.Valid()
        && (AB.BufferCheck(Some(buf)) == None ==>
              actionBuffer.buffer[..] == buf && actionBuffer.events == old(actionBuffer.events))
        && (AB.BufferCheck(Some(buf)).Some? ==>
              && actionBuffer.buffer[..] == old(actionBuffer.buffer[..])
              && actionBuffer.events == old(actionBuffer.events) + [AB.Error(AB.BufferCheck(Some(buf)).value)])
        && actionBuffer.actions == old(actionBuffer.actions) && actionBuffer.staged == old(actionBuffer.staged)
        && actionBuffer.configuration == old(actionBuffer.configuration)
        && actionBuffer.bufferUpdateInterval == old(actionBuffer.bufferUpdateInterval)
        && actionBuffer.isConnected == old(actionBuffer.isConnected)
        && actionBuffer.hasSender == old(actionBuffer.hasSender)
    {
      if actionBuffer == null {
        return;
      }
      var buffer := BuildStartupBuffer(devices);
      actionBuffer.SetBuffer(Some(buffer));
    }

    /** The loops of `setArtnetActionBufferByDeviceData`: 512 zeros, then each device's channel values in turn. */
    static method BuildStartupBuffer(devices: seq<Device>) returns (buffer: seq<real>)
      ensures buffer == StartupBuffer(Mappings(devices))
    {
      buffer := Zeros();
      for idx := 0 to |devices|
        invariant buffer == ApplyWrites(Zeros(), StartupWrites(Mappings(devices[..idx])))
      {
        var device := devices[idx];
        ghost var m := Mappings(devices[..idx]);
        ghost var ws := DeviceWrites(device.addresses, device.values.channel, Colours);
        buffer := WriteDeviceChannels(device, buffer);
        ApplyWritesAppend(Zeros(), StartupWrites(m), ws);
        assert devices[..idx + 1][..idx] == devices[..idx];
        assert Mappings(devices[..idx + 1]) == m + [(device.addresses, device.values.channel)];
        assert (m + [(device.addresses, device.values.channel)])[..|m|] == m;
      }
      assert devices[..|devices|] == devices;
    }

    /**
      The inner loop, for one device: each mapped colour whose cached value is a number
      is stored at its address minus one; any other mapped colour is skipped with a warning.
     */
    static method WriteDeviceChannels(device: Device, buffer: seq<real>) returns (r: seq<real>)
      ensures r == ApplyWrites(buffer, DeviceWrites(device.addresses, device.values.channel, Colours))
    {
      r := buffer;
      assert Colours[..0] == [];
      for j := 0 to |Colours|
        invariant r == ApplyWrites(buffer, DeviceWrites(device.addresses, device.values.channel, Colours[..j]))
      {
        ghost var ws := DeviceWrites(device.addresses, device.values.channel, Colours[..j]);
        assert Colours[..j + 1][..j] == Colours[..j];
        var c := Colours[j];
        var address := device.addresses.Get(c);
        assert DeviceWrites(device.addresses, device.values.channel, Colours[..j + 1])
            == ws + (if Mapped(address) && device.values.channel.Get(c).Number? then [(address.value - 1, device.values.channel.Get(c).n)] else []);
        if Mapped(address) {
          var channelValue := device.values.channel.Get(c);
          if channelValue.Number? {
            r := StoreAt(r, address.value - 1, channelValue.n);
            ghost var w := (address.value - 1, channelValue.n);
            assert (ws + [w])[..|ws|] == ws;
          }
        }
        assert !(Mapped(address) && device.values.channel.Get(c).Number?) ==>
          DeviceWrites(device.addresses, device.values.channel, Colours[..j + 1]) == ws;
      }
      assert Colours[..|Colours|] == Colours;
    }
  }

  /** The cache and the state log after the first `k` fields of `SyncedFields`, started from `s0` and `w0`. */
  ghost predicate SyncedTo(id: string, s0: StoredValues, v: Values, changed: seq<string>, w0: seq<(string, JsValue)>,
                           k: nat, values: StoredValues, threw: bool, writes: seq<(string, JsValue)>)
    requires k <= |SyncedFields|
  {
    var o := Sync(id, s0, v, SyncedFields[..k], changed);
    values == o.values && threw == o.threw && writes == w0 + o.writes
  }

  lemma SyncStart(id: string, s0: StoredValues, v: Values, changed: seq<string>, w0: seq<(string, JsValue)>)
    ensures SyncedTo(id, s0, v, changed, w0, 0, s0, false, w0)
  {
    assert SyncedFields[..0] == [];
  }

  /** Synchronising field `k` after the first `k - 1` went through extends the run by that field. */
  lemma SyncStep(id: string, s0: StoredValues, v: Values, changed: seq<string>, w0: seq<(string, JsValue)>,
                 k: nat, f: Field, force: bool, values: StoredValues, writes: seq<(string, JsValue)>)
    requires 1 <= k <= |SyncedFields| && f == SyncedFields[k - 1] && force == (FieldPath(f) in changed)
    requires SyncedTo(id, s0, v, changed, w0, k - 1, values, false, writes)
    ensures var n := SyncField(id, values, v, f, force);
      SyncedTo(id, s0, v, changed, w0, k, n.values, n.threw, writes + n.writes)
  {
    var pre, fs := SyncedFields[..k - 1], SyncedFields[..k];
    assert fs[..|fs| - 1] == pre && fs[|fs| - 1] == f;
    assert Sync(id, s0, v, fs, changed) == Then(Sync(id, s0, v, pre, changed), id, v, f, changed);
  }




  /**
    The action loop after the first `j` colours: the table and the event log hold the
    admissions of those colours' requests, and the fade time is settled once a mapped
    colour was met.
   */
  ghost predicate AdmittedUpTo(addrs: Addresses, ch: Channels, mult: Option<real>, fadeTime: real, ft0: real,
                               a0: map<int, AB.Action>, e0: seq<AB.Event>, buf: seq<real>, interval: real,
                               j: nat, actions: map<int, AB.Action>, events: seq<AB.Event>, ft: real)
  {
    && j <= |Colours|
    && (forall a :: a in addrs.MappedSet() ==> a <= |buf|)
    && var reqs := Requests(addrs, ch, mult, fadeTime, Colours[..j]);
    && actions == AdmitAll(a0, buf, interval, reqs)
    && events == e0 + AdmitEvents(reqs)
    && ft == if MappedCount(addrs, Colours[..j]) > 0 then Settled(ft0) else ft0
  }

  lemma AdmittedStart(addrs: Addresses, ch: Channels, mult: Option<real>, fadeTime: real, ft0: real,
                      a0: map<int, AB.Action>, e0: seq<AB.Event>, buf: seq<real>, interval: real)
    requires forall a :: a in addrs.MappedSet() ==> a <= |buf|
    ensures AdmittedUpTo(addrs, ch, mult, fadeTime, ft0, a0, e0, buf, interval, 0, a0, e0, ft0)
  {
    assert Colours[..0] == [];
  }

  /** A mapped colour adds its request, built with the settled fade time, to the admitted ones. */
  lemma AdmittedStepMapped(addrs: Addresses, ch: Channels, mult: Option<real>, fadeTime: real, ft0: real,
                           a0: map<int, AB.Action>, e0: seq<AB.Event>, buf: seq<real>, interval: real,
                           j: nat, actions: map<int, AB.Action>, events: seq<AB.Event>, ft: real, dft: real, req: AB.Request)
    requires j < |Colours| && Mapped(addrs.Get(Colours[j])) && fadeTime == EffectiveFadeTime(Settled(ft0), dft)
    requires AdmittedUpTo(addrs, ch, mult, fadeTime, ft0, a0, e0, buf, interval, j, actions, events, ft)
    requires req == RequestFor(addrs.Get(Colours[j]).value, ch.Get(Colours[j]), mult, EffectiveFadeTime(Settled(ft), dft))
    ensures req.channel <= |buf|
    ensures AdmittedUpTo(addrs, ch, mult, fadeTime, ft0, a0, e0, buf, interval, j + 1,
                         AB.AdmitInto(actions, buf, interval, req), events + AB.AdmissionEvents(req), Settled(ft0))
  {
    FadeTimeSettles(ft0, dft);
    var before := Requests(addrs, ch, mult, fadeTime, Colours[..j]);
    assert Colours[..j + 1][..j] == Colours[..j];
    assert Requests(addrs, ch, mult, fadeTime, Colours[..j + 1]) == before + [req];
    assert (before + [req])[..|before|] == before;
  }

  /** An unmapped colour changes nothing. */
  lemma AdmittedStepUnmapped(addrs: Addresses, ch: Channels, mult: Option<real>, fadeTime: real, ft0: real,
                             a0: map<int, AB.Action>, e0: seq<AB.Event>, buf: seq<real>, interval: real,
                             j: nat, actions: map<int, AB.Action>, events: seq<AB.Event>, ft: real)
    requires j < |Colours| && !Mapped(addrs.Get(Colours[j]))
    requires AdmittedUpTo(addrs, ch, mult, fadeTime, ft0, a0, e0, buf, interval, j, actions, events, ft)
    ensures AdmittedUpTo(addrs, ch, mult, fadeTime, ft0, a0, e0, buf, interval, j + 1, actions, events, ft)
  {
    assert Colours[..j + 1][..j] == Colours[..j];
    assert Requests(addrs, ch, mult, fadeTime, Colours[..j + 1]) == Requests(addrs, ch, mult, fadeTime, Colours[..j]);
    assert MappedCount(addrs, Colours[..j + 1]) == MappedCount(addrs, Colours[..j]);
  }
}
