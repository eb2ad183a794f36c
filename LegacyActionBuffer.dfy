/**
  The earlier action buffer kept at the root of the repository. It runs the same
  admission and tick algorithm as `ActionBuffer`, so it reuses that module's pure
  definitions; what differs is its state and its failure behaviour: a 513-slot buffer,
  no defaults, no events, and exceptions from connecting and transmitting escape.
 */
module LegacyActionBuffer {
  import opened Wrappers
  import opened ActionBuffer

  /** The clearing loop runs for `idx <= 512`, so the buffer has 513 slots. */
  const SlotCount: nat := 513

  class LegacyArtnetActionBuffer {
    var configuration: Config
    var buffer: array<real>
    var bufferUpdateInterval: real
    var actions: map<int, Action>
    var hasSender: bool
    var staged: map<int, real>

    ghost predicate Valid()
      reads this
    {
      && buffer.Length == SlotCount && TableValid(actions, SlotCount)
      && (!hasSender ==> staged == map[])
    }

    constructor (config: Config)
      ensures Valid() && fresh(buffer)
      ensures configuration == config && bufferUpdateInterval == 0.0
      ensures buffer[..] == seq(SlotCount, _ => 0.0)
      ensures actions == map[] && !hasSender && staged == map[]
    {
      configuration := config;
      var slots := new real[SlotCount];
      for idx := 0 to SlotCount
        invariant forall i :: 0 <= i < idx ==> slots[i] == 0.0
      {
        slots[idx] := 0.0;
      }
      buffer := slots;
      bufferUpdateInterval := 0.0;
      actions := map[];
      hasSender := false;
      staged := map[];
    }

    /**
      `startBufferUpdate`: replaces the sender and sets the tick interval from the
      configured frame rate, with no default. A failure to build the sender escapes
      (`threw`) before the interval is set.
     */
    method StartBufferUpdate(connectOk: bool) returns (threw: bool)
      requires Valid() && configuration.framesPerSec != 0.0
      modifies this`hasSender, this`staged, this`bufferUpdateInterval
      ensures Valid()
      ensures hasSender == connectOk && threw == !connectOk && staged == map[]
      ensures connectOk ==> bufferUpdateInterval * configuration.framesPerSec == 1000.0
      ensures !connectOk ==> bufferUpdateInterval == old(bufferUpdateInterval)
    {
      if hasSender {
        hasSender := false;
        staged := map[];
      }
      if !connectOk {
        threw := true;
        return;
      }
      hasSender := true;
      bufferUpdateInterval := 1000.0 / configuration.framesPerSec;
      threw := false;
    }

    /** `addAction`: the same admission as the current buffer, without an event. */
    method AddAction(req: Request)
      requires Valid() && req.channel <= SlotCount
      modifies this`actions
      ensures Valid()
      ensures actions == AdmitInto(old(actions), buffer[..], bufferUpdateInterval, req)
    {
      var channel := req.channel - 1;
      var kind := KindOf(req.action);
      if channel == 0 || channel < 0 {
        return;
      }
      if req.value.None? {
        return;
      }
      var v := req.value.value;
      match kind {
        case Some(Set) =>
          actions := actions[channel := Action(req.channel, Set, v, 0.0, v - buffer[channel])];
        case Some(FadeTo) =>
          var ft := if req.fadeTime != 0.0 then req.fadeTime else DefaultFadeTime;
          actions := actions[channel := Action(req.channel, FadeTo, v, ft, (v - buffer[channel]) / ft * bufferUpdateInterval)];
          ghost var adm := Admission(req, buffer[channel], bufferUpdateInterval).value;
          assert adm.step == actions[channel].step;
          assert actions[channel] == adm;
        case None =>
      }
    }

    /**
      `updateArtnetBuffer`: one tick with the same effect on buffer, table and sender as
      the current buffer's. A `prepChannel` failure (its key in `prepFails`) is swallowed
      without any report; the final `transmit()` is not guarded, so its failure escapes.
     */
    method UpdateArtnetBuffer(prepFails: set<int>, transmitOk: bool) returns (threw: bool)
      requires Valid()
      modifies this`actions, this`staged, buffer
      ensures Valid()
      ensures !old(hasSender) ==> buffer[..] == old(buffer[..]) && actions == old(actions) && staged == old(staged) && !threw
      ensures old(hasSender) ==>
        var ks := KeysBelow(old(actions), SlotCount);
        && buffer[..] == ResolveAll(old(buffer[..]), old(actions), ks)
        && actions == Remaining(old(buffer[..]), old(actions), ks, prepFails)
        && staged == old(staged) + Prepared(old(buffer[..]), old(actions), ks, prepFails)
        && threw == !transmitOk
    {
      if !hasSender {
        return false;
      }
      var keys := KeysBelow(actions, buffer.Length);
      ghost var buf0, table0, staged0 := buffer[..], actions, staged;
      for idx := 0 to |keys|
        invariant Valid()
        invariant TickInv(buf0, table0, staged0, keys, prepFails, idx, buffer[..], actions, staged)
      {
        ghost var b, a, st := buffer[..], actions, staged;
        TickNext(buf0, table0, staged0, keys, prepFails, idx, b, a, st);
        ApplyAction(keys[idx], keys[idx] !in prepFails);
        TickInvStep(buf0, table0, staged0, keys, prepFails, idx, b, a, st, buffer[..], actions, staged);
      }
      TickInvDone(buf0, table0, staged0, keys, prepFails, buffer[..], actions, staged);
      threw := !transmitOk;
    }

    /**
      The tick loop's body for one pending action. When `prepChannel` throws (`!prepOk`)
      the catch does nothing: the written value stays in the buffer and the action stays pending.
     */
    method ApplyAction(key: int, prepOk: bool)
      requires Valid() && hasSender && key in actions && actions[key].channel - 1 == key
      modifies this`actions, this`staged, buffer
      ensures Valid()
      ensures var res := Resolve(old(buffer[..])[key], old(actions)[key]);
        && buffer[..] == old(buffer[..])[key := res.value]
        && actions == (if res.done && prepOk then old(actions) - {key} else old(actions))
        && staged == (if prepOk then old(staged)[key := res.value] else old(staged))
    {
      var actionObj := actions[key];
      var ch := actionObj.channel - 1;
      var deleteBufferAction := false;
      match actionObj.kind {
        case FadeTo =>
          buffer[ch] := buffer[ch] + actionObj.step;
          if (actionObj.step > 0.0 && buffer[ch] >= actionObj.value)
            || (actionObj.step < 0.0 && buffer[ch] <= actionObj.value)
            || actionObj.step == 0.0 || buffer[ch] == actionObj.value
          {
            buffer[ch] := actionObj.value;
            deleteBufferAction := true;
          }
        case Set =>
          buffer[ch] := actionObj.value;
          deleteBufferAction := true;
      }
      if !prepOk {
        return;
      }
      staged := staged[ch := buffer[ch]];
      if deleteBufferAction {
        actions := actions - {key};
      }
    }
  }
}
