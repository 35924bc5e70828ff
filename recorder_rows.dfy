/** Rows, point-of-interest lists and distance rows of the Kinect recorder
    (Recorder.py), as values. The class in recorder.dfy holds these in its
    fields; everything here is pure. */
module RecorderRows {

  /** pygame event types that the recorder distinguishes (SDL2 numbering). */
  const Quit: int := 256
  const KeyDown: int := 768
  const KeyUp: int := 769

  /** Kinect v2 joint indices used by the recorder. */
  const JointCount: nat := 25
  const WristRight: nat := 10
  const HandTipRight: nat := 23

  /** Names written into the `typ` column, indexed by joint number (the last
      one, 'Count', is never used since only joints 0..24 are sampled). */
  const JointNames: seq<string> :=
    ["SpineBase", "SpineMid", "Neck", "Head",
     "ShoulderLeft", "ElbowLeft", "WristLeft", "HandLeft",
     "ShoulderRight", "ElbowRight", "WristRight", "HandRight",
     "HipLeft", "KneeLeft", "AnkleLeft", "FootLeft",
     "HipRight", "KneeRight", "AnkleRight", "FootRight",
     "SpineShoulder", "HandTipLeft", "ThumbLeft", "HandTipRight", "ThumbRight", "Count"]

  /** Column names of the distances table; a distances row never has more cells. */
  const DistanceColumns: seq<string> :=
    ["tire1", "distance1", "timestamp1", "tire2", "distance2", "timestamp2",
     "field1", "distance_field1", "timestamp_field1",
     "field2", "distance_field2", "timestamp_field2"]

  /** A camera-space position (floats in the source, reals here). */
  datatype Pos = Pos(x: real, y: real, z: real)

  /** A tracked body as the SDK hands it over: tracked flag, the 25 joint
      positions and the colour-space projection of the right hand tip. */
  datatype Body = Body(isTracked: bool, joints: seq<Pos>, tipX: real, tipY: real)

  /** An input event: type, `unicode` and `scancode` (only key events carry the last two). */
  datatype Event = Event(evType: int, unicode: string, scancode: int)

  /** A row of `events`. */
  datatype EventRow = EventRow(eventType: int, counter: nat, timestamp: int)

  /** A row of `events_keys`. */
  datatype KeyRow = KeyRow(eventType: int, unicode: string, scancode: int, counter: nat, timestamp: int)

  /** A row of `full_samples` or `hand_samples`; `joint` is the joint type,
      whose name (the `typ` column) is `JointNames[joint]`. */
  datatype JointRow = JointRow(pos: Pos, joint: nat, counter: nat, timestamp: int)
  {
    function Typ(): string
      requires joint < |JointNames|
    {
      JointNames[joint]
    }
  }

  /** A row of `finger_points`: projected and camera-space right hand tip. */
  datatype FingerRow = FingerRow(pointX: real, pointY: real, pos: Pos, counter: nat, timestamp: int)

  /** A point-of-interest row: the key that set it followed by the finger row it copies. */
  datatype PoiRow = PoiRow(key: string, pointX: real, pointY: real, pos: Pos, counter: nat, timestamp: int)

  /** One cell of a distances row, whose cells alternate key, squared distance, timestamp. */
  datatype Cell = KeyCell(key: string) | DistanceCell(distance: real) | TimeCell(timestamp: int)

  /** The two POI families; each has its own current list and history. */
  datatype Family = Tires | Fields

  predicate IsTireKey(k: string) { k == "1" || k == "2" }

  predicate IsFieldKey(k: string) { k == "3" || k == "4" }

  predicate IsPoiKey(k: string) { IsTireKey(k) || IsFieldKey(k) }

  predicate InFamily(k: string, f: Family)
  {
    match f
    case Tires => IsTireKey(k)
    case Fields => IsFieldKey(k)
  }

  /** The POI row a key-down builds from the latest finger point. */
  function PoiFrom(key: string, f: FingerRow): PoiRow
  {
    PoiRow(key, f.pointX, f.pointY, f.pos, f.counter, f.timestamp)
  }

  // ---------------------------------------------------------------------
  // Current POI lists: filter out a key, then append
  // ---------------------------------------------------------------------

  predicate HasKey(s: seq<PoiRow>, k: string)
  {
    exists i :: 0 <= i < |s| && s[i].key == k
  }

  predicate UniqueKeys(s: seq<PoiRow>)
  {
    forall i, j :: 0 <= i < j < |s| ==> s[i].key != s[j].key
  }

  /** The rows of `s` whose key is not `k`, in order. */
  function Without(s: seq<PoiRow>, k: string): seq<PoiRow>
  {
    if s == [] then []
    else Without(s[..|s| - 1], k) + (if s[|s| - 1].key != k then [s[|s| - 1]] else [])
  }

  /** Rows of `s` whose key belongs to family `f`, in order. */
  function Only(s: seq<PoiRow>, f: Family): seq<PoiRow>
  {
    if s == [] then []
    else Only(s[..|s| - 1], f) + (if InFamily(s[|s| - 1].key, f) then [s[|s| - 1]] else [])
  }

  /** Overwriting the current entry of a key: the others keep their order, the new row goes last. */
  function Overwrite(cur: seq<PoiRow>, row: PoiRow): seq<PoiRow>
  {
    Without(cur, row.key) + [row]
  }

  /** The current list that a history of POI writes leaves behind. */
  function Replay(h: seq<PoiRow>): seq<PoiRow>
  {
    if h == [] then [] else Overwrite(Replay(h[..|h| - 1]), h[|h| - 1])
  }

  /** The last row of `h` written with key `k`. */
  function LastWithKey(h: seq<PoiRow>, k: string): (r: PoiRow)
    requires HasKey(h, k)
    ensures r.key == k && r in h
  {
    if h[|h| - 1].key == k then h[|h| - 1]
    else
      assert HasKey(h[..|h| - 1], k) by {
        var i :| 0 <= i < |h| && h[i].key == k;
        assert h[..|h| - 1][i].key == k;
      }
      LastWithKey(h[..|h| - 1], k)
  }

  lemma {:induction false} WithoutAppend(a: seq<PoiRow>, b: seq<PoiRow>, k: string)
    ensures Without(a + b, k) == Without(a, k) + Without(b, k)
  {
    if b != [] {
      assert (a + b)[..|a + b| - 1] == a + b[..|b| - 1];
      WithoutAppend(a, b[..|b| - 1], k);
    } else {
      assert a + b == a;
    }
  }

  lemma {:induction false} OnlyAppend(a: seq<PoiRow>, b: seq<PoiRow>, f: Family)
    ensures Only(a + b, f) == Only(a, f) + Only(b, f)
  {
    if b != [] {
      assert (a + b)[..|a + b| - 1] == a + b[..|b| - 1];
      OnlyAppend(a, b[..|b| - 1], f);
    } else {
      assert a + b == a;
    }
  }

  /** Filtering a key out keeps exactly the rows with another key. */
  lemma {:induction false} WithoutMembers(s: seq<PoiRow>, k: string)
    ensures forall x :: x in Without(s, k) <==> x in s && x.key != k
  {
    if s != [] {
      WithoutMembers(s[..|s| - 1], k);
      assert s == s[..|s| - 1] + [s[|s| - 1]];
    }
  }

  /** Filtering a key out leaves unique keys unique and is idempotent. */
  lemma {:induction false} WithoutUnique(s: seq<PoiRow>, k: string)
    requires UniqueKeys(s)
    ensures UniqueKeys(Without(s, k))
    ensures |Without(s, k)| <= |s|
  {
    if s != [] {
      var p := s[..|s| - 1];
      WithoutUnique(p, k);
      WithoutMembers(p, k);
      var w := Without(p, k);
      if s[|s| - 1].key != k {
        forall i | 0 <= i < |w|
          ensures w[i].key != s[|s| - 1].key
        {
          assert w[i] in w;
          var j :| 0 <= j < |p| && p[j] == w[i];
        }
      }
    }
  }

  lemma {:induction false} WithoutTwice(s: seq<PoiRow>, k: string)
    ensures Without(Without(s, k), k) == Without(s, k)
  {
    if s != [] {
      var p := s[..|s| - 1];
      WithoutTwice(p, k);
      var tail := if s[|s| - 1].key != k then [s[|s| - 1]] else [];
      WithoutAppend(Without(p, k), tail, k);
      if tail != [] {
        assert tail[..0] == [];
      }
    }
  }

  /** After an overwrite the key occurs exactly once, in the last place, and
      the other entries are those of before, in their previous order. */
  lemma OverwritePlacesLast(cur: seq<PoiRow>, row: PoiRow)
    ensures var r := Overwrite(cur, row);
      && |r| > 0 && r[|r| - 1] == row
      && (forall i :: 0 <= i < |r| - 1 ==> r[i].key != row.key)
      && Without(r, row.key) == Without(cur, row.key)
  {
    var w := Without(cur, row.key);
    WithoutMembers(cur, row.key);
    forall i | 0 <= i < |w|
      ensures w[i].key != row.key
    {
      assert w[i] in w;
    }
    WithoutAppend(w, [row], row.key);
    assert Without([row], row.key) == [] by {
      assert [row][..0] == [];
    }
    WithoutTwice(cur, row.key);
  }

  /** Overwriting keeps keys unique. */
  lemma OverwriteUnique(cur: seq<PoiRow>, row: PoiRow)
    requires UniqueKeys(cur)
    ensures UniqueKeys(Overwrite(cur, row))
  {
    WithoutUnique(cur, row.key);
    OverwritePlacesLast(cur, row);
  }

  /** A current list never holds two entries for one key. */
  lemma {:induction false} ReplayUnique(h: seq<PoiRow>)
    ensures UniqueKeys(Replay(h))
  {
    if h != [] {
      ReplayUnique(h[..|h| - 1]);
      OverwriteUnique(Replay(h[..|h| - 1]), h[|h| - 1]);
    }
  }

  /** The last write of a key is not affected by a later write of another key. */
  lemma LastWithKeyPrefix(h: seq<PoiRow>, k: string)
    requires h != [] && HasKey(h[..|h| - 1], k) && k != h[|h| - 1].key
    ensures HasKey(h, k) && LastWithKey(h, k) == LastWithKey(h[..|h| - 1], k)
  {
    var i :| 0 <= i < |h| - 1 && h[..|h| - 1][i].key == k;
    assert h[i].key == k;
  }

  /** Every entry of a current list is the latest write of its key. */
  lemma {:induction false} ReplaySound(h: seq<PoiRow>)
    ensures forall x :: x in Replay(h) ==> HasKey(h, x.key) && x == LastWithKey(h, x.key)
  {
    if h != [] {
      var p, last := h[..|h| - 1], h[|h| - 1];
      ReplaySound(p);
      WithoutMembers(Replay(p), last.key);
      assert Replay(h) == Without(Replay(p), last.key) + [last];
      forall x | x in Replay(h)
        ensures HasKey(h, x.key) && x == LastWithKey(h, x.key)
      {
        if x == last {
          assert h[|h| - 1].key == x.key;
        } else {
          assert x in Without(Replay(p), last.key);
          assert x in Replay(p) && x.key != last.key;
          LastWithKeyPrefix(h, x.key);
        }
      }
    }
  }

  /** Every key ever written has its latest write in the current list. */
  lemma {:induction false} ReplayComplete(h: seq<PoiRow>, k: string)
    requires HasKey(h, k)
    ensures LastWithKey(h, k) in Replay(h)
  {
    var p, last := h[..|h| - 1], h[|h| - 1];
    if k != last.key {
      var i :| 0 <= i < |h| && h[i].key == k;
      assert p[i].key == k;
      ReplayComplete(p, k);
      LastWithKeyPrefix(h, k);
      WithoutMembers(Replay(p), last.key);
    }
  }

  /** The family filter commutes with overwriting. */
  lemma {:induction false} OnlyWithout(s: seq<PoiRow>, f: Family, k: string)
    ensures Only(Without(s, k), f) == (if InFamily(k, f) then Without(Only(s, f), k) else Only(s, f))
  {
    if s != [] {
      var p, last := s[..|s| - 1], s[|s| - 1];
      OnlyWithout(p, f, k);
      var wt := if last.key != k then [last] else [];
      OnlyAppend(Without(p, k), wt, f);
      var ot := if InFamily(last.key, f) then [last] else [];
      WithoutAppend(Only(p, f), ot, k);
      if wt != [] { assert wt[..0] == []; }
      if ot != [] { assert ot[..0] == []; }
    }
  }

  /** Filtering a replayed history by family gives the replay of that
      family's part of the history: the tire and field current lists are the
      tire and field entries of the combined current list, in its order. */
  lemma {:induction false} OnlyReplay(h: seq<PoiRow>, f: Family)
    ensures Only(Replay(h), f) == Replay(Only(h, f))
  {
    if h != [] {
      var p, last := h[..|h| - 1], h[|h| - 1];
      OnlyReplay(p, f);
      OnlyAppend(Without(Replay(p), last.key), [last], f);
      OnlyWithout(Replay(p), f, last.key);
      assert [last][..0] == [];
      if InFamily(last.key, f) {
        assert Only(h, f) == Only(p, f) + [last];
        assert Only(h, f)[..|Only(h, f)| - 1] == Only(p, f);
      } else {
        assert Only(h, f) == Only(p, f);
      }
    }
  }

  /** Rows whose keys are distinct and drawn from `keys` are at most |keys| many. */
  lemma {:induction false} UniqueKeysBound(s: seq<PoiRow>, keys: set<string>)
    requires UniqueKeys(s)
    requires forall i :: 0 <= i < |s| ==> s[i].key in keys
    ensures |s| <= |keys|
  {
    if s != [] {
      var p := s[..|s| - 1];
      UniqueKeysBound(p, keys - {s[|s| - 1].key});
    }
  }

  /** A history made of POI keys only replays to at most four current entries. */
  lemma ReplayAtMostFour(h: seq<PoiRow>)
    requires forall i :: 0 <= i < |h| ==> IsPoiKey(h[i].key)
    ensures |Replay(h)| <= 4
  {
    var r := Replay(h);
    ReplayUnique(h);
    ReplaySound(h);
    forall i | 0 <= i < |r|
      ensures r[i].key in {"1", "2", "3", "4"}
    {
      assert r[i] in r;
      var j :| 0 <= j < |h| && h[j].key == r[i].key;
    }
    UniqueKeysBound(r, {"1", "2", "3", "4"});
  }

  /** Every row of a history filtered to a family has a key of that family. */
  lemma {:induction false} OnlyKeys(s: seq<PoiRow>, f: Family)
    ensures forall i :: 0 <= i < |Only(s, f)| ==> InFamily(Only(s, f)[i].key, f)
  {
    if s != [] {
      OnlyKeys(s[..|s| - 1], f);
    }
  }

  /** A history of POI keys splits into its tire part and its field part. */
  lemma {:induction false} OnlySplit(s: seq<PoiRow>)
    requires forall i :: 0 <= i < |s| ==> IsPoiKey(s[i].key)
    ensures |s| == |Only(s, Tires)| + |Only(s, Fields)|
  {
    if s != [] {
      OnlySplit(s[..|s| - 1]);
    }
  }

  // ---------------------------------------------------------------------
  // The POI registry: three current lists and three histories
  // ---------------------------------------------------------------------

  /** `positions_curr`, `positions_all`, `tires_curr`, `tires_all`, `fields_curr`, `fields_all`. */
  datatype Registry = Registry(
    positionsCurr: seq<PoiRow>, positionsAll: seq<PoiRow>,
    tiresCurr: seq<PoiRow>, tiresAll: seq<PoiRow>,
    fieldsCurr: seq<PoiRow>, fieldsAll: seq<PoiRow>)

  const EmptyRegistry: Registry := Registry([], [], [], [], [], [])

  /** What the registry keeps true: histories hold only POI keys, the family
      histories are the family parts of the combined history, and every
      current list is what its history leaves behind. */
  predicate RegistryInv(r: Registry)
  {
    && (forall i :: 0 <= i < |r.positionsAll| ==> IsPoiKey(r.positionsAll[i].key))
    && r.tiresAll == Only(r.positionsAll, Tires)
    && r.fieldsAll == Only(r.positionsAll, Fields)
    && r.positionsCurr == Replay(r.positionsAll)
    && r.tiresCurr == Replay(r.tiresAll)
    && r.fieldsCurr == Replay(r.fieldsAll)
  }

  /** The registry writes of a key-down: keys '1' and '2' go to the tire lists,
      '3' and '4' to the field lists, both mirrored into the combined lists;
      every other key changes nothing. */
  function SetPoi(r: Registry, row: PoiRow): Registry
  {
    if IsTireKey(row.key) then
      r.(tiresCurr := Overwrite(r.tiresCurr, row), tiresAll := r.tiresAll + [row],
         positionsCurr := Overwrite(r.positionsCurr, row), positionsAll := r.positionsAll + [row])
    else if IsFieldKey(row.key) then
      r.(fieldsCurr := Overwrite(r.fieldsCurr, row), fieldsAll := r.fieldsAll + [row],
         positionsCurr := Overwrite(r.positionsCurr, row), positionsAll := r.positionsAll + [row])
    else r
  }

  lemma ReplaySnoc(h: seq<PoiRow>, row: PoiRow)
    ensures Replay(h + [row]) == Overwrite(Replay(h), row)
  {
    assert (h + [row])[..|h|] == h;
  }

  lemma OnlySnoc(h: seq<PoiRow>, row: PoiRow, f: Family)
    ensures Only(h + [row], f) == Only(h, f) + (if InFamily(row.key, f) then [row] else [])
  {
    assert (h + [row])[..|h|] == h;
  }

  lemma EmptyRegistryInv()
    ensures RegistryInv(EmptyRegistry)
  {
  }

  /** Every key-down keeps the registry invariant. */
  lemma SetPoiKeepsInv(r: Registry, row: PoiRow)
    requires RegistryInv(r)
    ensures RegistryInv(SetPoi(r, row))
  {
    if IsTireKey(row.key) {
      SetTireKeepsInv(r, row);
    } else if IsFieldKey(row.key) {
      SetFieldKeepsInv(r, row);
    }
  }

  /** The combined history keeps holding POI keys only. */
  lemma PoiKeysSnoc(pa: seq<PoiRow>, row: PoiRow)
    requires forall i :: 0 <= i < |pa| ==> IsPoiKey(pa[i].key)
    requires IsPoiKey(row.key)
    ensures forall i :: 0 <= i < |pa + [row]| ==> IsPoiKey((pa + [row])[i].key)
  {
    forall i | 0 <= i < |pa + [row]| ensures IsPoiKey((pa + [row])[i].key) {
      if i < |pa| {
        assert (pa + [row])[i] == pa[i];
      }
    }
  }

  lemma SetTireKeepsInv(r: Registry, row: PoiRow)
    requires RegistryInv(r) && IsTireKey(row.key)
    ensures RegistryInv(SetPoi(r, row))
  {
    var pa := r.positionsAll;
    var r' := SetPoi(r, row);
    assert r'.positionsAll == pa + [row] && r'.tiresAll == r.tiresAll + [row] && r'.fieldsAll == r.fieldsAll;
    PoiKeysSnoc(pa, row);
    OnlySnoc(pa, row, Tires);
    OnlySnoc(pa, row, Fields);
    assert !InFamily(row.key, Fields);
    ReplaySnoc(pa, row);
    ReplaySnoc(r.tiresAll, row);
  }

  lemma SetFieldKeepsInv(r: Registry, row: PoiRow)
    requires RegistryInv(r) && IsFieldKey(row.key)
    ensures RegistryInv(SetPoi(r, row))
  {
    var pa := r.positionsAll;
    var r' := SetPoi(r, row);
    assert !IsTireKey(row.key);
    assert r'.positionsAll == pa + [row] && r'.fieldsAll == r.fieldsAll + [row] && r'.tiresAll == r.tiresAll;
    PoiKeysSnoc(pa, row);
    OnlySnoc(pa, row, Tires);
    OnlySnoc(pa, row, Fields);
    assert !InFamily(row.key, Tires);
    ReplaySnoc(pa, row);
    ReplaySnoc(r.fieldsAll, row);
  }

  /** A key-down appends exactly one row to the combined history and one to
      the history of its family, and only for a POI key. */
  lemma SetPoiHistories(r: Registry, row: PoiRow)
    ensures var r' := SetPoi(r, row);
      && r'.positionsAll == r.positionsAll + (if IsPoiKey(row.key) then [row] else [])
      && r'.tiresAll == r.tiresAll + (if IsTireKey(row.key) then [row] else [])
      && r'.fieldsAll == r.fieldsAll + (if IsFieldKey(row.key) then [row] else [])
  {
  }

  /** Under the invariant keys are unique in every current list. */
  lemma RegistryUnique(r: Registry)
    requires RegistryInv(r)
    ensures UniqueKeys(r.positionsCurr) && UniqueKeys(r.tiresCurr) && UniqueKeys(r.fieldsCurr)
  {
    ReplayUnique(r.positionsAll);
    ReplayUnique(r.tiresAll);
    ReplayUnique(r.fieldsAll);
  }

  /** Under the invariant the tire and field lists are the tire and field
      entries of the combined list, in its order, and hold only their own
      family's keys. */
  lemma RegistryViews(r: Registry)
    requires RegistryInv(r)
    ensures r.tiresCurr == Only(r.positionsCurr, Tires)
    ensures r.fieldsCurr == Only(r.positionsCurr, Fields)
    ensures forall i :: 0 <= i < |r.tiresCurr| ==> IsTireKey(r.tiresCurr[i].key)
    ensures forall i :: 0 <= i < |r.fieldsCurr| ==> IsFieldKey(r.fieldsCurr[i].key)
  {
    OnlyReplay(r.positionsAll, Tires);
    OnlyReplay(r.positionsAll, Fields);
    OnlyKeys(r.positionsCurr, Tires);
    OnlyKeys(r.positionsCurr, Fields);
  }

  /** Under the invariant at most four POIs are current, and the combined
      history is exactly as long as the tire and field histories together. */
  lemma RegistryCounts(r: Registry)
    requires RegistryInv(r)
    ensures |r.positionsCurr| <= 4
    ensures |r.positionsAll| == |r.tiresAll| + |r.fieldsAll|
  {
    ReplayAtMostFour(r.positionsAll);
    OnlySplit(r.positionsAll);
  }

  /** A key-down of '1' or '2' leaves exactly one entry for that key in both
      the tire list and the combined list, in the last place, built from the
      given row; the other entries keep their relative order. */
  lemma SetTireOverwrites(r: Registry, row: PoiRow)
    requires IsTireKey(row.key)
    ensures var r' := SetPoi(r, row);
      && r'.tiresCurr[|r'.tiresCurr| - 1] == row
      && (forall i :: 0 <= i < |r'.tiresCurr| - 1 ==> r'.tiresCurr[i].key != row.key)
      && Without(r'.tiresCurr, row.key) == Without(r.tiresCurr, row.key)
      && r'.positionsCurr[|r'.positionsCurr| - 1] == row
      && (forall i :: 0 <= i < |r'.positionsCurr| - 1 ==> r'.positionsCurr[i].key != row.key)
      && Without(r'.positionsCurr, row.key) == Without(r.positionsCurr, row.key)
      && r'.fieldsCurr == r.fieldsCurr
  {
    OverwritePlacesLast(r.tiresCurr, row);
    OverwritePlacesLast(r.positionsCurr, row);
  }

  /** The same for a key-down of '3' or '4' and the field list. */
  lemma SetFieldOverwrites(r: Registry, row: PoiRow)
    requires IsFieldKey(row.key)
    ensures var r' := SetPoi(r, row);
      && r'.fieldsCurr[|r'.fieldsCurr| - 1] == row
      && (forall i :: 0 <= i < |r'.fieldsCurr| - 1 ==> r'.fieldsCurr[i].key != row.key)
      && Without(r'.fieldsCurr, row.key) == Without(r.fieldsCurr, row.key)
      && r'.positionsCurr[|r'.positionsCurr| - 1] == row
      && (forall i :: 0 <= i < |r'.positionsCurr| - 1 ==> r'.positionsCurr[i].key != row.key)
      && Without(r'.positionsCurr, row.key) == Without(r.positionsCurr, row.key)
      && r'.tiresCurr == r.tiresCurr
  {
    OverwritePlacesLast(r.fieldsCurr, row);
    OverwritePlacesLast(r.positionsCurr, row);
  }

  /** Any other key leaves the registry as it was. */
  lemma SetOtherKeyUnchanged(r: Registry, row: PoiRow)
    requires !IsPoiKey(row.key)
    ensures SetPoi(r, row) == r
  {
  }

  // ---------------------------------------------------------------------
  // Distances
  // ---------------------------------------------------------------------

  /** Squared Euclidean distance, without a square root. */
  function SqDist(a: Pos, b: Pos): (d: real)
    ensures d >= 0.0
    ensures a == b ==> d == 0.0
  {
    (a.x - b.x) * (a.x - b.x) + (a.y - b.y) * (a.y - b.y) + (a.z - b.z) * (a.z - b.z)
  }

  /** The three cells a POI contributes to a distances row. */
  function DistanceCells(wrist: Pos, poi: PoiRow, ts: int): seq<Cell>
  {
    [KeyCell(poi.key), DistanceCell(SqDist(wrist, poi.pos)), TimeCell(ts)]
  }

  /** The distances row for the current POIs, in their order. */
  function DistanceRow(pois: seq<PoiRow>, wrist: Pos, ts: int): seq<Cell>
  {
    if pois == [] then []
    else DistanceRow(pois[..|pois| - 1], wrist, ts) + DistanceCells(wrist, pois[|pois| - 1], ts)
  }

  /** A distances row has three cells per current POI: its key, the squared
      distance from the wrist to it, and the timestamp. */
  lemma {:induction false} DistanceRowShape(pois: seq<PoiRow>, wrist: Pos, ts: int)
    ensures |DistanceRow(pois, wrist, ts)| == 3 * |pois|
    ensures forall i :: 0 <= i < |pois| ==>
      && DistanceRow(pois, wrist, ts)[3 * i] == KeyCell(pois[i].key)
      && DistanceRow(pois, wrist, ts)[3 * i + 1] == DistanceCell(SqDist(wrist, pois[i].pos))
      && DistanceRow(pois, wrist, ts)[3 * i + 2] == TimeCell(ts)
  {
    if pois != [] {
      var p := pois[..|pois| - 1];
      DistanceRowShape(p, wrist, ts);
      var row := DistanceRow(pois, wrist, ts);
      forall i | 0 <= i < |pois|
        ensures row[3 * i] == KeyCell(pois[i].key)
        ensures row[3 * i + 1] == DistanceCell(SqDist(wrist, pois[i].pos))
        ensures row[3 * i + 2] == TimeCell(ts)
      {
        if i < |p| {
          assert pois[i] == p[i];
        }
      }
    }
  }

  /** With at most four current POIs the row fits the twelve named columns. */
  lemma DistanceRowFits(pois: seq<PoiRow>, wrist: Pos, ts: int)
    requires |pois| <= 4
    ensures |DistanceRow(pois, wrist, ts)| <= |DistanceColumns|
  {
    DistanceRowShape(pois, wrist, ts);
  }

  /** The worked example: wrist (1,2,3) against a POI at (1,2,6) gives 9. */
  lemma SqDistExample()
    ensures SqDist(Pos(1.0, 2.0, 3.0), Pos(1.0, 2.0, 6.0)) == 9.0
  {
  }

  // ---------------------------------------------------------------------
  // Joint samples
  // ---------------------------------------------------------------------

  /** The 25 `full_samples` rows of one tracked body, in joint order. */
  function JointRows(joints: seq<Pos>, counter: nat, ts: int): seq<JointRow>
    requires |joints| == JointCount
  {
    seq(JointCount, x requires 0 <= x < JointCount => JointRow(joints[x], x, counter, ts))
  }
}
