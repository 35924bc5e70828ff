// The sensor listener: classification of MetaWear packets into records,
// the subscriber list with per-subscriber type filters, dispatch of each new
// record to the matching subscribers, and filtered reads of the record log.

module SensorListener {

  import opened Wrappers

  /** The type tag of a packet as the sensor bridge sends it. */
  datatype PacketType = Acc | Gyro | Switch | Battery | Fused | Other(tag: int)

  datatype Vec3 = Vec3(x: real, y: real, z: real)

  /** A parsed packet: sensor timestamp in milliseconds, the general value
      fields `w` and `x`, the fused vectors and the `extra` counter. */
  datatype Packet = Packet(typ: PacketType, timestamp: int, w: real, x: real, acc: Vec3, gyro: Vec3, extra: int)

  /** What a record carries besides its timestamps, one variant per type. */
  datatype Payload =
    | SwitchData(pressed: bool)
    | BatteryData(percent: real, millivolts: real)
    | FusedData(acc: Vec3, gyro: Vec3, counter: int)

  /** A received record: sensor time in seconds, host time in seconds, payload. */
  datatype Record = Record(timestampSensor: real, timestamp: real, payload: Payload)
  {
    /** The record's "type" entry. */
    function TypeName(): string
    {
      match payload
      case SwitchData(_) => "switch"
      case BatteryData(_, _) => "battery"
      case FusedData(_, _, _) => "fused"
    }
  }

  /** The types a subscriber gets when it names none. */
  const DefaultFilter: seq<string> := ["switch", "battery", "fused"]

  /** Whether `deserialize` turns packets of this type into a record. */
  predicate Recognised(t: PacketType)
  {
    t == Switch || t == Battery || t == Fused
  }

  /** A packet classified into a record stamped with host time `now`, or
      nothing for raw accelerometer/gyroscope packets and unknown types. */
  function Deserialize(p: Packet, now: real): (r: Option<Record>)
    ensures r.Some? <==> Recognised(p.typ)
    ensures r.Some? ==> r.value.timestampSensor * 1000.0 == p.timestamp as real
    ensures r.Some? ==> r.value.timestamp == now
  {
    var sensorTime := p.timestamp as real / 1000.0;
    match p.typ
    case Switch => Some(Record(sensorTime, now, SwitchData(p.w != 0.0)))
    case Battery => Some(Record(sensorTime, now, BatteryData(p.w, p.x)))
    case Fused => Some(Record(sensorTime, now, FusedData(p.acc, p.gyro, p.extra)))
    case _ => None
  }

  /** The packet type each record type comes from. */
  function TagOf(typeName: string): Option<PacketType>
  {
    if typeName == "switch" then Some(Switch)
    else if typeName == "battery" then Some(Battery)
    else if typeName == "fused" then Some(Fused)
    else None
  }

  /** A record's sensor time is a whole number of milliseconds, as every
      deserialised record's is. */
  predicate WholeMillis(rec: Record)
  {
    (rec.timestampSensor * 1000.0).Floor as real == rec.timestampSensor * 1000.0
  }

  /** A packet that deserialises to `rec`; a pressed switch is sent as 1.0. */
  function Encode(rec: Record): (p: Packet)
    ensures Recognised(p.typ)
  {
    var ms := (rec.timestampSensor * 1000.0).Floor;
    var zero := Vec3(0.0, 0.0, 0.0);
    match rec.payload
    case SwitchData(pressed) => Packet(Switch, ms, if pressed then 1.0 else 0.0, 0.0, zero, zero, 0)
    case BatteryData(percent, millivolts) => Packet(Battery, ms, percent, millivolts, zero, zero, 0)
    case FusedData(acc, gyro, counter) => Packet(Fused, ms, 0.0, 0.0, acc, gyro, counter)
  }

  /** Every record with a whole-millisecond sensor time is what its encoding
      deserialises to. */
  lemma DeserializeEncode(rec: Record)
    requires WholeMillis(rec)
    ensures Deserialize(Encode(rec), rec.timestamp) == Some(rec)
  {
    var ms := (rec.timestampSensor * 1000.0).Floor;
    assert ms as real / 1000.0 == rec.timestampSensor;
  }

  /** Deserialised records have whole-millisecond sensor times, and their
      type names the packet type they came from. */
  lemma DeserializeTypes(p: Packet, now: real)
    requires Recognised(p.typ)
    ensures WholeMillis(Deserialize(p, now).value)
    ensures TagOf(Deserialize(p, now).value.TypeName()) == Some(p.typ)
  {
    var rec := Deserialize(p, now).value;
    assert rec.timestampSensor * 1000.0 == p.timestamp as real;
  }

  /** The payload of each recognised packet type, field by field. */
  lemma DeserializePayload(p: Packet, now: real)
    ensures p.typ == Switch ==> Deserialize(p, now).value.payload.SwitchData?
                                && (Deserialize(p, now).value.payload.pressed <==> p.w != 0.0)
    ensures p.typ == Battery ==> Deserialize(p, now).value.payload == BatteryData(p.w, p.x)
    ensures p.typ == Fused ==> Deserialize(p, now).value.payload == FusedData(p.acc, p.gyro, p.extra)
  {
  }

  // ---------------------------------------------------------------------
  // Subscribers and dispatch
  // ---------------------------------------------------------------------

  /** A registered callback, identified by a caller-chosen handle, with the
      record types it accepts. */
  datatype Subscription = Subscription(callback: nat, typeFilter: seq<string>)

  /** One call of a callback: the position of its registration, its handle
      and the record it was given. */
  datatype Invocation = Invocation(slot: nat, callback: nat, record: Record)

  /** The filter stored for a registration: the default when none is given. */
  function FilterOrDefault(typeFilter: Option<seq<string>>): seq<string>
  {
    match typeFilter
    case None => DefaultFilter
    case Some(types) => types
  }

  /** The calls one record causes: each subscriber whose filter holds the
      record's type, in registration order. */
  function Dispatch(subs: seq<Subscription>, rec: Record): seq<Invocation>
  {
    if subs == [] then []
    else
      var n := |subs| - 1;
      Dispatch(subs[..n], rec)
      + (if rec.TypeName() in subs[n].typeFilter then [Invocation(n, subs[n].callback, rec)] else [])
  }

  /** Every call goes to a registered subscriber that accepts the record. */
  lemma {:induction false} DispatchSound(subs: seq<Subscription>, rec: Record)
    ensures forall k :: 0 <= k < |Dispatch(subs, rec)| ==>
      var c := Dispatch(subs, rec)[k];
      && c.slot < |subs|
      && c.callback == subs[c.slot].callback
      && c.record == rec
      && rec.TypeName() in subs[c.slot].typeFilter
  {
    if subs != [] {
      var n := |subs| - 1;
      DispatchSound(subs[..n], rec);
      var d := Dispatch(subs, rec);
      forall k | 0 <= k < |d|
        ensures d[k].slot < |subs| && d[k].callback == subs[d[k].slot].callback
        ensures d[k].record == rec && rec.TypeName() in subs[d[k].slot].typeFilter
      {
        if k < |Dispatch(subs[..n], rec)| {
          assert d[k] == Dispatch(subs[..n], rec)[k];
          assert subs[..n][d[k].slot] == subs[d[k].slot];
        }
      }
    }
  }

  /** Calls are made in registration order, so no registration is called twice. */
  lemma {:induction false} DispatchOrdered(subs: seq<Subscription>, rec: Record)
    ensures forall j, k :: 0 <= j < k < |Dispatch(subs, rec)| ==>
      Dispatch(subs, rec)[j].slot < Dispatch(subs, rec)[k].slot
  {
    if subs != [] {
      var n := |subs| - 1;
      DispatchOrdered(subs[..n], rec);
      DispatchSound(subs[..n], rec);
      var prev := Dispatch(subs[..n], rec);
      var d := Dispatch(subs, rec);
      forall j, k | 0 <= j < k < |d| ensures d[j].slot < d[k].slot {
        assert d[j] == prev[j];
        if k < |prev| {
          assert d[k] == prev[k];
        } else {
          assert d[k].slot == n;
        }
      }
    }
  }

  /** Every subscriber that accepts the record is called. */
  lemma {:induction false} DispatchComplete(subs: seq<Subscription>, rec: Record, j: nat)
    requires j < |subs| && rec.TypeName() in subs[j].typeFilter
    ensures exists k :: 0 <= k < |Dispatch(subs, rec)| && Dispatch(subs, rec)[k].slot == j
  {
    var n := |subs| - 1;
    var prev := Dispatch(subs[..n], rec);
    var d := Dispatch(subs, rec);
    if j == n {
      assert d[|prev|].slot == j;
    } else {
      assert subs[..n][j] == subs[j];
      DispatchComplete(subs[..n], rec, j);
      var k :| 0 <= k < |prev| && prev[k].slot == j;
      assert d[k] == prev[k];
    }
  }

  /** A registration takes the next slot: each later record reaches the
      new callback after all earlier ones, and always when it named no filter. */
  lemma DispatchAfterRegister(subs: seq<Subscription>, callback: nat, typeFilter: Option<seq<string>>, rec: Record)
    ensures Dispatch(subs + [Subscription(callback, FilterOrDefault(typeFilter))], rec)
            == Dispatch(subs, rec)
               + (if typeFilter.None? || rec.TypeName() in typeFilter.value
                  then [Invocation(|subs|, callback, rec)] else [])
  {
    var all := subs + [Subscription(callback, FilterOrDefault(typeFilter))];
    assert all[..|subs|] == subs;
    if typeFilter.None? {
      assert rec.TypeName() in DefaultFilter by {
        match rec.payload
        case SwitchData(_) => assert DefaultFilter[0] == "switch";
        case BatteryData(_, _) => assert DefaultFilter[1] == "battery";
        case FusedData(_, _, _) => assert DefaultFilter[2] == "fused";
      }
    }
  }

  // ---------------------------------------------------------------------
  // Filtered reads of the record log
  // ---------------------------------------------------------------------

  /** The records whose type is one of `types`, in their original order. */
  function KeepTypes(records: seq<Record>, types: seq<string>): seq<Record>
  {
    if records == [] then []
    else
      var n := |records| - 1;
      KeepTypes(records[..n], types) + (if records[n].TypeName() in types then [records[n]] else [])
  }

  /** A record is kept exactly when it was in the log and its type is asked for. */
  lemma {:induction false} KeepTypesMembers(records: seq<Record>, types: seq<string>)
    ensures forall x :: x in KeepTypes(records, types) <==> x in records && x.TypeName() in types
  {
    if records != [] {
      var n := |records| - 1;
      KeepTypesMembers(records[..n], types);
      assert records == records[..n] + [records[n]];
    }
  }

  /** Filtering never lengthens a log. */
  lemma {:induction false} KeepTypesLength(records: seq<Record>, types: seq<string>)
    ensures |KeepTypes(records, types)| <= |records|
  {
    if records != [] {
      KeepTypesLength(records[..|records| - 1], types);
    }
  }

  /** Filtering a log that grew is filtering the old part and then the new part. */
  lemma {:induction false} KeepTypesAppend(a: seq<Record>, b: seq<Record>, types: seq<string>)
    ensures KeepTypes(a + b, types) == KeepTypes(a, types) + KeepTypes(b, types)
    decreases |b|
  {
    if b == [] {
      assert a + b == a;
    } else {
      var n := |b| - 1;
      assert (a + b)[..|a| + n] == a + b[..n];
      assert (a + b)[|a| + n] == b[n];
      KeepTypesAppend(a, b[..n], types);
    }
  }

  /** Asking for every type a log holds returns the whole log. */
  lemma {:induction false} KeepTypesAll(records: seq<Record>, types: seq<string>)
    requires forall i :: 0 <= i < |records| ==> records[i].TypeName() in types
    ensures KeepTypes(records, types) == records
  {
    if records != [] {
      var n := |records| - 1;
      assert forall i :: 0 <= i < n ==> records[..n][i] == records[i];
      KeepTypesAll(records[..n], types);
      assert records[..n] + [records[n]] == records;
    }
  }

  /** Filtering twice by the same types changes nothing the second time. */
  lemma KeepTypesIdempotent(records: seq<Record>, types: seq<string>)
    ensures KeepTypes(KeepTypes(records, types), types) == KeepTypes(records, types)
  {
    var kept := KeepTypes(records, types);
    KeepTypesMembers(records, types);
    forall i | 0 <= i < |kept| ensures kept[i].TypeName() in types {
      assert kept[i] in kept;
    }
    KeepTypesAll(kept, types);
  }

  // ---------------------------------------------------------------------
  // The listener's state
  // ---------------------------------------------------------------------

  class Listener {
    /** Every record received so far, in arrival order. */
    var allReceived: seq<Record>
    /** The registered callbacks with their filters, in registration order. */
    var callbacks: seq<Subscription>
    /** Every callback call made so far. */
    ghost var invoked: seq<Invocation>

    constructor ()
      ensures allReceived == [] && callbacks == [] && invoked == []
    {
      allReceived := [];
      callbacks := [];
      invoked := [];
    }

    /** Adds a callback; with no filter it receives every record type. */
    method RegisterCallback(callback: nat, typeFilter: Option<seq<string>>)
      modifies this`callbacks
      ensures callbacks == old(callbacks) + [Subscription(callback, FilterOrDefault(typeFilter))]
    {
      var filter := if typeFilter.Some? then typeFilter.value else DefaultFilter;
      callbacks := callbacks + [Subscription(callback, filter)];
    }

    /** A copy of the record log, restricted to `filterTypes` when that is
        given and non-empty. */
    function GetRecorded(filterTypes: Option<seq<string>>): (r: seq<Record>)
      reads this`allReceived
      ensures filterTypes == None || filterTypes == Some([]) ==> r == allReceived
      ensures filterTypes.Some? && filterTypes.value != [] ==>
        forall x :: x in r <==> x in allReceived && x.TypeName() in filterTypes.value
      ensures |r| <= |allReceived|
    {
      if filterTypes.Some? && filterTypes.value != [] then
        KeepTypesMembers(allReceived, filterTypes.value);
        KeepTypesLength(allReceived, filterTypes.value);
        KeepTypes(allReceived, filterTypes.value)
      else allReceived
    }

    /** Deserialises one message; a record is logged and handed to each
        subscriber that accepts its type, in registration order. */
    method CallCallbacks(p: Packet, now: real)
      modifies this`allReceived, this`invoked
      ensures Deserialize(p, now).None? ==> allReceived == old(allReceived) && invoked == old(invoked)
      ensures Deserialize(p, now).Some? ==>
        var rec := Deserialize(p, now).value;
        allReceived == old(allReceived) + [rec] && invoked == old(invoked) + Dispatch(callbacks, rec)
    {
      var deserialized := Deserialize(p, now);
      if deserialized.Some? {
        var rec := deserialized.value;
        allReceived := allReceived + [rec];
        var i := 0;
        while i < |callbacks|
          invariant 0 <= i <= |callbacks|
          invariant allReceived == old(allReceived) + [rec]
          invariant invoked == old(invoked) + Dispatch(callbacks[..i], rec)
        {
          assert callbacks[..i + 1][..i] == callbacks[..i];
          if rec.TypeName() in callbacks[i].typeFilter {
            invoked := invoked + [Invocation(i, callbacks[i].callback, rec)];
          }
          i := i + 1;
        }
        assert callbacks[..i] == callbacks;
      }
    }
  }
}
