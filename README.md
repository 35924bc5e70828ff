# Kinect recorder and sensor listener — a Dafny model

This project models the recording core of a Kinect v2 motion recorder and
of the listener that receives MetaWear sensor packets.

**The recorder (`Recorder.py`)** runs a main loop with two parts.

- The event branch. Every input event is logged with the current sample
  counter, and QUIT ends the loop. A key-down first reads the most recent
  right-hand-tip sample. With no sample yet this raises IndexError before
  the key log is touched; otherwise the key-down is logged in the key log.
  Keys `1` and `2` then set a tire point of
  interest (POI). Keys `3` and `4` set a field POI. Setting a POI replaces
  the current entry for that key and appends the row to the histories. A
  key-up is logged in the key log with `"none"` as its key.
- `processHandPos`. For every tracked body of the last body frame it does
  the following:
  - logs the 25 joints, tagged with their joint type and the sample counter;
  - logs the right wrist again in the hand log;
  - logs the right hand tip as a finger point;
  - increments the counter;
  - through `calc_distances`, appends a row that holds, for each current
    POI, its key, the squared distance from the right wrist and a timestamp.

**The listener (`listener.py`)** does three things.

- `deserialize` classifies a packet into a switch, battery or fused record.
  ACC, GYRO and unknown packet types give nothing.
- `call_callbacks` logs each record and passes it to every registered
  callback whose type filter names the record's type, in registration order.
- `get_recorded` returns the log, optionally restricted to some types.

Files:

- `wrappers.dfy` (module `Wrappers`): the `Option` type both models use.
- `recorder_rows.dfy` (module `RecorderRows`):
  - the row types and the event and joint constants;
  - the POI lists as values: `Without` filters out a key, `Overwrite`
    replaces a key's entry, `Replay` is the current list a history leaves
    behind, and `Only` is the family filter;
  - the POI `Registry` of the six POI lists, with its invariant `RegistryInv`;
  - the squared distance and the distances row.
- `recorder.dfy` (module `KinectRecorder`):
  - the class `Recorder`, whose methods update its fields in place;
  - the specification functions its methods are proved against: `ApplyEvent`
    and `ApplyEvents` for the event branch, `SampleBody` and `SampleFrame`
    for sampling;
  - the recorder invariant `StateValid` and the lemmas that each step keeps it.
- `listener.dfy` (module `SensorListener`):
  - packets, records, `Deserialize` and its inverse `Encode`;
  - `Dispatch`, the calls caused by one record, and `KeepTypes`, the
    filtered read;
  - the class `Listener`.

The recorder's methods state their new state exactly, as spec functions of
the old state. The invariant is a predicate over those values:

- all logs are aligned with the counter;
- joint rows are tagged with their sample and joint;
- no event row is ahead of the counter;
- every current POI list is the replay of its history;
- every POI is a copy of the finger sample its counter names.

It is proved preserved by `EventKeepsValid`, `EventsKeepValid` and
`FrameKeepsValid` for exactly the values the methods produce.

Where the code and its comments disagree, the model follows the code:

- Fields are keys `3` and `4` only. A comment says 3-5, and the distances
  table has field columns for two fields.
- The key log also holds key-up rows, although its comment says "only button
  down".
- Any key-down, not only a POI key, needs a finger sample, and without one
  the handler raises. The event row has already been appended by then.

## Model

| member | source | states |
|---|---|---|
| RecorderRows.WithoutMembers | Recorder.py:207 | filtering a key out of a POI list keeps exactly the rows whose key differs |
| RecorderRows.OverwritePlacesLast | Recorder.py:207-208 | after an overwrite the key occurs exactly once, as the last entry, holding the new row; the other entries keep their order |
| RecorderRows.OverwriteUnique | Recorder.py:213-214 | overwriting keeps the keys of a current list unique |
| RecorderRows.ReplayUnique | Recorder.py:94 | the current list left by any history has at most one entry per key |
| RecorderRows.ReplaySound | Recorder.py:94-96 | every current entry is the latest write of its key in the history |
| RecorderRows.ReplayComplete | Recorder.py:94-96 | the latest write of every key ever written is in the current list |
| RecorderRows.OnlyReplay | Recorder.py:97-100 | the tire (field) current list is the replay of the tire (field) history, which is the family's part of the combined current list |
| RecorderRows.ReplayAtMostFour | Recorder.py:205-229 | a history of POI keys replays to at most four current entries |
| RecorderRows.EmptyRegistryInv | Recorder.py:94-100 | the empty POI lists of a new recorder satisfy the registry invariant |
| RecorderRows.SetPoiKeepsInv | Recorder.py:205-229 | setting a POI keeps every current list the replay of its history and the family histories the family parts of the combined history |
| RecorderRows.SetPoiHistories | Recorder.py:205-229 | setting a POI appends the row to the combined history and to its family's history only, and nothing for other keys |
| RecorderRows.RegistryUnique | Recorder.py:94 | under the invariant no current list holds two entries for one key |
| RecorderRows.RegistryViews | Recorder.py:97-100 | under the invariant the tire and field current lists are the tire and field parts of the combined current list |
| RecorderRows.RegistryCounts | Recorder.py:205-229 | under the invariant at most four POIs are current and the combined history is as long as the tire and field histories together |
| RecorderRows.SetTireOverwrites | Recorder.py:205-215 | a key-down of 1 or 2 leaves that key's new row last in the tire and combined current lists, drops its earlier entry, and leaves the field lists as they were |
| RecorderRows.SetFieldOverwrites | Recorder.py:217-229 | a key-down of 3 or 4 leaves that key's new row last in the field and combined current lists, drops its earlier entry, and leaves the tire lists as they were |
| RecorderRows.SetOtherKeyUnchanged | Recorder.py:231-235 | any other key leaves all six POI lists unchanged |
| RecorderRows.SqDist | Recorder.py:383-387 | the squared distance is never negative and is zero for coinciding points |
| RecorderRows.SqDistExample | Recorder.py:383-387 | a wrist at (1,2,3) against a POI at (1,2,6) gives 9, with no square root |
| RecorderRows.DistanceRowShape | Recorder.py:379-391 | a distances row has three cells per current POI in list order: its key, its squared distance from the wrist, the timestamp |
| RecorderRows.DistanceRowFits | Recorder.py:450 | with at most four current POIs a distances row fits the twelve named columns |
| KinectRecorder.SampleBodyKeepsValid | Recorder.py:346-365 | sampling one body keeps the logs aligned with the counter and every joint row tagged with its sample and joint |
| KinectRecorder.SampleFrameKeepsValid | Recorder.py:330-365 | sampling a frame keeps the logs aligned and advances the counter by exactly the number of tracked bodies |
| KinectRecorder.SampleFrameExtends | Recorder.py:358-360 | sampling only appends finger points; earlier ones are kept |
| KinectRecorder.FullSamplesTagged | Recorder.py:346-356 | appending a sample's 25 joint rows keeps row j tagged with sample j / 25 and joint j % 25 |
| KinectRecorder.ApplyEventsFails | Recorder.py:180-199 | a batch of events raises exactly when it holds a key-down and no finger point has been sampled |
| KinectRecorder.ApplyEventsLogsAll | Recorder.py:180-193 | once a finger point exists, or when the batch holds no key-down, every event of the batch is logged in order with the current counter, after the old rows |
| KinectRecorder.ApplyEventsQuits | Recorder.py:178-182 | once a finger point exists, or when the batch holds no key-down, the loop ends after the batch exactly when it was ending already or the batch holds a QUIT |
| KinectRecorder.ApplyEventsNoSample | Recorder.py:195-199 | before the first finger sample no event sets a POI |
| KinectRecorder.SetPoiFromSample | Recorder.py:195-199 | a POI set from the latest finger point is a copy of the finger sample its counter names |
| KinectRecorder.EventKeepsLogs | Recorder.py:192-203 | an event adds event and key rows at the current counter only |
| KinectRecorder.EventKeepsRegistry | Recorder.py:195-229 | an event keeps the registry invariant and keeps every POI a copy of its finger sample |
| KinectRecorder.EventKeepsValid | Recorder.py:180-241 | one event, failing or not, keeps the recorder invariant for the state the event handler leaves |
| KinectRecorder.EventsKeepValid | Recorder.py:180-241 | a batch of events, failing or not, keeps the recorder invariant |
| KinectRecorder.FrameKeepsValid | Recorder.py:325-365 | sampling a frame against the current POIs keeps the recorder invariant |
| KinectRecorder.Recorder.constructor | Recorder.py:78-103 | a new recorder has counter 0, all logs and POI lists empty, and satisfies the invariant |
| KinectRecorder.Recorder.HandleEvent | Recorder.py:181-241 | one event: its row is logged, QUIT sets done, a key-down without a finger point raises, and otherwise key rows and POI lists change as the event prescribes |
| KinectRecorder.Recorder.HandleEvents | Recorder.py:180-241 | the pending events are handled in order until the first one that raises, as `ApplyEvents` prescribes |
| KinectRecorder.Recorder.LogEvent | Recorder.py:181-193 | the event row is appended and QUIT sets done |
| KinectRecorder.Recorder.LogKey | Recorder.py:201-203 | exactly one key row is appended |
| KinectRecorder.Recorder.SetPoiRow | Recorder.py:205-229 | the six POI lists become what setting the POI prescribes |
| KinectRecorder.Recorder.CalcDistances | Recorder.py:367-395 | exactly one distances row is appended: the row for the current POIs and the wrist |
| KinectRecorder.Recorder.SampleJoints | Recorder.py:346-356 | the 25 joint rows are appended to the full log and the right wrist's row to the hand log |
| KinectRecorder.Recorder.ProcessBody | Recorder.py:332-365 | one tracked body is sampled under the old counter, which then goes up by one |
| KinectRecorder.Recorder.ProcessHandPos | Recorder.py:325-365 | with no frame nothing changes; otherwise every tracked body is sampled in frame order |
| SensorListener.Deserialize | listener.py:22-54 | a record exists exactly for switch, battery and fused packets; its sensor time is the packet time divided by 1000 and its host time is the given clock reading |
| SensorListener.DeserializePayload | listener.py:29-46 | switch records hold pressed iff w is non-zero; battery records hold w and x; fused records hold acc, gyro and extra |
| SensorListener.DeserializeTypes | listener.py:27-46 | a record's type names the packet type it came from, and its sensor time is a whole number of milliseconds |
| SensorListener.DeserializeEncode | listener.py:22-54 | every record with a whole-millisecond sensor time is what its encoded packet deserialises to |
| SensorListener.DispatchSound | listener.py:147-149 | every call goes to a registered callback whose filter names the record's type, with that record |
| SensorListener.DispatchOrdered | listener.py:147-149 | calls follow registration order strictly, so no registration is called twice for one record (a handle registered twice is called once per registration) |
| SensorListener.DispatchComplete | listener.py:147-149 | every registered callback whose filter names the record's type is called |
| SensorListener.DispatchAfterRegister | listener.py:115-116 | a new registration is called after all earlier ones, and for every record when it named no filter |
| SensorListener.KeepTypesMembers | listener.py:131 | a record is returned exactly when it was received and its type is asked for |
| SensorListener.KeepTypesLength | listener.py:131 | filtering never returns more records than the log holds |
| SensorListener.KeepTypesAppend | listener.py:129-131 | filtering keeps arrival order: filtering a grown log is filtering the old part followed by the new part |
| SensorListener.KeepTypesAll | listener.py:129-131 | asking for every type the log holds returns the whole log |
| SensorListener.KeepTypesIdempotent | listener.py:131 | filtering an answer again by the same types changes nothing |
| SensorListener.Listener.constructor | listener.py:76-91 | a new listener has no records, no callbacks and no calls |
| SensorListener.Listener.RegisterCallback | listener.py:115-116 | the callback is appended last with its filter, or the default filter when none is given |
| SensorListener.Listener.GetRecorded | listener.py:129-131 | no filter or an empty filter returns the whole log; otherwise a record is returned exactly when it was received and its type is asked for; the answer is never longer than the log |
| SensorListener.Listener.CallCallbacks | listener.py:144-149 | an unrecognised packet changes nothing; a record is appended to the log once and the calls `Dispatch` prescribes are made |

## Left out

- Kinect SDK calls are not modelled: frame acquisition, color-space conversion and `max_body_count` (Recorder.py:72, 244-262). A frame arrives as a parameter: an optional list of bodies, each with a tracked flag, 25 joint positions and the projected hand-tip point.
- pygame drawing, display scaling, window resizing (VIDEORESIZE) and the frame-rate clock are left out (Recorder.py:105-174, 184-186, 244-247, 253-278, 282-283, 294-320). They are display only.
- The main loop itself is not modelled (Recorder.py:176-178, 249-251, 280): it calls `HandleEvents` and then `ProcessHandPos` on the last received frame, again on every pass.
- Writing the logs to CSV files with pandas is left out, as is the output directory setup (Recorder.py:401-481 for the files, 487-496 for the directory). The column names of the distances table appear only as `DistanceColumns`.
- The activity list (Recorder.py:89, 231-235) is left out. The source never fills it; for other keys it only prints.
- Timestamps from `time.time()` and `datetime.now()` are not modelled: each call takes one timestamp parameter. The source reads the clock separately for each row.
- Joint rows store the joint index instead of its name. `JointRow.Typ` gives the name from the source's list.
- Positions and distances are reals, not floats; there is no rounding and no NaN.
- The listener's packet values are reals, not floats: `w`, `x`, the acc and gyro vectors, and the sensor time divided by 1000 (listener.py:27). There is no rounding and no NaN.
- The packet timestamp is taken to be a whole number of milliseconds. The protobuf definition that fixes its type is not part of this model, and `DeserializeTypes`' whole-millisecond result rests on that choice.
- RecorderRows.SqDistExample: states one worked instance. The general per-axis sum of squares is the body of `SqDist`, and only its consequences (never negative, zero at coinciding points) are stated as a contract.
- RecorderRows.SqDist: the converse, a zero distance implies coinciding points, is not stated. It needs nonlinear reasoning over reals that the solver does not do reliably.
- KinectRecorder.Recorder.HandleEvent: the methods do not carry the invariant in their own contracts. They state their exact new state, and `EventKeepsValid`, `EventsKeepValid` and `FrameKeepsValid` prove the invariant for that state.
- Console output is left out: the listener's warnings for unsupported packet types (listener.py:48, 51) and the recorder's prints when a POI is set or an activity key is pressed (Recorder.py:215, 228, 232, 241). They change no state.
- Protobuf parsing is not modelled (listener.py:23-24): a packet is a datatype with a type tag and fields.
- ZeroMQ sockets, the polling thread, `start`, `close` and `_stream_callback` are left out (listener.py:80-103, 151-179).
- The DataFrame conversion in `get_recorded` (listener.py:133-135) is left out.
- Callbacks are numeric handles. A call is recorded in the ghost log `invoked` instead of running foreign code, so the effects of callbacks and exceptions they raise are not modelled.
- A type filter is a list of strings. Passing a single string as the filter, where Python's `in` would match substrings, is not modelled.
