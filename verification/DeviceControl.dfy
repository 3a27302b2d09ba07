/** Writing a slot: trust, writability and value checks, the message to the
    adapter, and the value kept until the adapter answers. */
module DeviceControl {
  import opened Options
  import opened SlotValues
  import opened TypedDevices

  datatype SlotWrite =
    | Denied
    | BadValue
    | Written(found: bool, sent: bool, confirmed: Option<bool>)

  /** What the adapter makes of a message: whether it is connected, and confirms in time. */
  datatype Reply = Reply(accepts: bool, confirms: bool)

  /** A message that went out to an adapter. */
  datatype Message = SetState(stateId: string, payload: string) | SetSlotV2(device: string, slot: string, v: SlotValue)

  predicate Trusted(trust: Option<int>, slot: Slot) {
    trust == None || slot.trust == None || trust.value >= slot.trust.value
  }

  /** The checks a write passes before anything is sent; None when it passes. */
  function Refusal(devices: Devices, device: string, slotId: string, v: Value, trust: Option<int>): Option<SlotWrite> {
    if !HasSlot(devices, device, slotId) then Some(Written(false, false, None))
    else
      var slot := SlotOf(devices, device, slotId);
      if !Trusted(trust, slot) then Some(Denied)
      else if !slot.writable then Some(Written(true, false, None))
      else if ToSlotValue(slot.kind, v) == None then Some(BadValue)
      else None
  }

  function MessageOf(device: TypedDevice, slot: Slot, v: SlotValue): Message {
    if device.origin == V2 then SetSlotV2(device.deviceId, slot.slotId, v)
    else SetState(slot.stateId, JsonDumps(V1WireValue(slot.kind, slot.inverted, v)))
  }

  class DeviceController {
    const registry: DeviceRegistry
    var messages: seq<Message>
    var waiters: set<(string, string)>

    constructor (registry: DeviceRegistry)
      ensures this.registry == registry && messages == [] && waiters == {}
    {
      this.registry, messages, waiters := registry, [], {};
    }

    method SetSlot(device: string, slotId: string, v: Value, trust: Option<int>, wait: bool, reply: Reply)
      returns (r: SlotWrite)
      requires registry.Valid()
      modifies this, registry`devices
      ensures registry.Valid()
      ensures var refusal := Refusal(old(registry.devices), device, slotId, v, trust);
        if refusal.Some?
        then r == refusal.value && messages == old(messages) && registry.devices == old(registry.devices)
        else
          var slot := SlotOf(old(registry.devices), device, slotId);
          var value := ToSlotValue(slot.kind, v).value;
          var d := old(registry.devices)[device];
          && messages == old(messages) +
                         (if reply.accepts then [MessageOf(d.(deviceId := device), slot, value)] else [])
          && r.Written? && r.found && r.sent == reply.accepts
          && (r.confirmed.Some? <==> d.origin == V2 && wait && reply.accepts)
          && (r.confirmed.Some? ==> r.confirmed.value == reply.confirms)
          && registry.devices == (if d.origin == V1 && reply.accepts
                                  then SetValue(old(registry.devices), device, slotId, value)
                                  else old(registry.devices))
      ensures waiters <= old(waiters) && old(waiters) - waiters <= {(device, slotId)}
    {
      if device !in registry.devices {
        return Written(false, false, None);
      }
      var d := registry.devices[device];
      var i := SlotAt(d.slots, slotId);
      if i == |d.slots| {
        return Written(false, false, None);
      }
      var slot := d.slots[i];
      if trust.Some? && slot.trust.Some? && trust.value < slot.trust.value {
        return Denied;
      }
      if !slot.writable {
        return Written(true, false, None);
      }
      var value := ToSlotValue(slot.kind, v);
      if value == None {
        return BadValue;
      }
      if d.origin == V2 {
        r := WriteV2(device, slotId, value.value, wait, reply);
        return;
      }
      if reply.accepts {
        messages := messages + [SetState(slot.stateId, JsonDumps(V1WireValue(slot.kind, slot.inverted, value.value)))];
        var _ := registry.SetSlotValue(device, slotId, value.value);
      }
      r := Written(true, reply.accepts, None);
    }

    /** Registers for the confirmation before sending, and whatever happens not any more afterwards. */
    method WriteV2(device: string, slotId: string, v: SlotValue, wait: bool, reply: Reply) returns (r: SlotWrite)
      modifies this
      ensures messages == old(messages) + (if reply.accepts then [SetSlotV2(device, slotId, v)] else [])
      ensures r == Written(true, reply.accepts, if wait && reply.accepts then Some(reply.confirms) else None)
      ensures waiters == if wait then old(waiters) - {(device, slotId)} else old(waiters)
    {
      if wait {
        waiters := waiters + {(device, slotId)};
      }
      if reply.accepts {
        messages := messages + [SetSlotV2(device, slotId, v)];
      }
      r := Written(true, reply.accepts, if wait && reply.accepts then Some(reply.confirms) else None);
      if wait {
        waiters := waiters - {(device, slotId)};
      }
    }
  }

  // ----------------------------------------------------------------------
  // The echo

  lemma SetTwice(devices: Devices, device: string, slot: string, v: SlotValue, w: SlotValue)
    requires HasSlot(devices, device, slot)
    ensures SetValue(SetValue(devices, device, slot, v), device, slot, w) == SetValue(devices, device, slot, w)
    ensures SetValue(devices, device, slot, v) == SetValue(devices, device, slot, w) <==> v == w
  {
    SetValueSets(devices, device, slot, v, device, slot);
    SetValueSets(devices, device, slot, w, device, slot);
    var d := devices[device];
    var i := SlotAt(d.slots, slot);
    SlotAtKept(d.slots, i, v, slot);
    assert d.slots[i := d.slots[i].(value := v)][i := d.slots[i].(value := w)] == d.slots[i := d.slots[i].(value := w)];
  }

  /** Once a write to a v1 slot has gone out and its value is kept, the adapter's echo of the very text
      that was sent changes nothing in the registry if and only if the text holds no character that
      json.dumps escapes. */
  lemma EchoKeepsRegistry(devices: Devices, index: map<string, (string, string)>, device: string, slotId: string,
                          v: Value)
    requires HasSlot(devices, device, slotId) && devices[device].origin == V1
    requires var slot := SlotOf(devices, device, slotId);
      ToSlotValue(slot.kind, v).Some? && slot.stateId in index && index[slot.stateId] == (device, slotId)
    ensures var slot := SlotOf(devices, device, slotId);
      var value := ToSlotValue(slot.kind, v).value;
      var written := SetValue(devices, device, slotId, value);
      Updated(written, index, slot.stateId, MessageOf(devices[device], slot, value).payload) == written
      <==> (value.Words? ==> forall c :: c in value.s ==> Plain(c))
  {
    hide JsonDumps, V1WireValue, Normalize, Plain, ToSlotValue;
    var slot := SlotOf(devices, device, slotId);
    var value := ToSlotValue(slot.kind, v).value;
    CheckedFits(slot.kind, v);
    SetValueSets(devices, device, slotId, value, device, slotId);
    EchoIff(slot.kind, slot.inverted, value);
    SetTwice(devices, device, slotId, value, Echo(slot.kind, slot.inverted, value));
  }
}
