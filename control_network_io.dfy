/** Writing an ISIS control network (version 2) file: a textual label at offset 0,
    the binary buffer header at HEADERSTARTBYTE, and the point records packed
    right after it. */
module ControlNetworkIo {
  import opened Wrappers
  import opened FileBytes
  import opened Layout
  import opened Decimal
  import opened Pvl

  const VERSION: int := 2
  const HEADERSTARTBYTE: nat := 65536
  const DEFAULTUSERNAME: string := "AutoControlNetGeneration"

  // ----- The network as the writer consumes it: groups of rows in groupby order -----

  /** A point id as it comes out of the `pid` column. */
  datatype Pid = StrPid(s: string) | IntPid(n: int)

  /** One measure row: image serial number, measure type and image coordinates. */
  datatype Row = Row(nid: string, pointType: int, x: real, y: real)

  datatype PointGroup = PointGroup(pid: Pid, rows: seq<Row>)

  /** `n` and `m` are the network's own point and measure counts. */
  datatype ControlNetwork = ControlNetwork(
    groups: seq<PointGroup>,
    creationDate: string,
    modifiedDate: string,
    n: int,
    m: int)

  // ----- Messages of the ControlNetFileV0002 schema -----

  datatype Measure = Measure(serialNumber: string, measureType: int, sample: real, line: real)

  datatype PointMessage = PointMessage(id: string, pointType: int, referenceIndex: int, measures: seq<Measure>)

  datatype BufferHeader = BufferHeader(
    created: string,
    lastModified: string,
    networkId: string,
    description: string,
    targetName: string,
    userName: string,
    pointMessageSizes: seq<nat>)

  /** The encoders this module calls but does not define: protobuf serialisation of a
      point and of the buffer header, and `pvl.dumps` of the label tree. The size of a
      message is the length of its serialisation. */
  datatype Encoders = Encoders(
    point: PointMessage -> seq<byte>,
    header: BufferHeader -> seq<byte>,
    dumps: seq<PvlEntry> -> seq<byte>)

  datatype StoreError = NotImplemented

  /** The caller-supplied names carried into both headers. */
  datatype NetworkNames = NetworkNames(networkId: string, targetName: string, description: string, userName: string)

  // ----- Point ids -----

  /** `str(pid)`. */
  function Str(pid: Pid): string
  {
    match pid
    case StrPid(s) => s
    case IntPid(n) => IntToDecimal(n)
  }

  /** How the id was set: `Native` when assigning `pid` to the string field succeeded,
      `Coerced` when the assignment raised and `str(pid)` was stored instead. */
  datatype IdAssignment = Native(id: string) | Coerced(id: string)

  /** The try/except around `point_spec.id = pid`: only a string can go into the
      string field; anything else falls back to its text form. It never fails. */
  function AssignId(pid: Pid): (a: IdAssignment)
    ensures a.Native? <==> pid.StrPid?
    ensures a.id == Str(pid)
  {
    match pid
    case StrPid(s) => Native(s)
    case IntPid(n) => Coerced(IntToDecimal(n))
  }

  /** Two pids of the same kind that get the same id are the same pid. */
  lemma AssignIdInjective(p: Pid, q: Pid)
    requires p.StrPid? == q.StrPid?
    requires AssignId(p).id == AssignId(q).id
    ensures p == q
  {
    if p.IntPid? {
      IntToDecimalInjective(p.n, q.n);
    }
  }

  // ----- Points -----

  /** The measure a row becomes. */
  function MeasureOf(row: Row): (m: Measure)
    ensures m.serialNumber == row.nid && m.measureType == row.pointType
    ensures m.sample == row.x && m.line == row.y
  {
    Measure(row.nid, row.pointType, row.x, row.y)
  }

  /** The point message built for one group. */
  function PointOf(g: PointGroup, pointType: int): (p: PointMessage)
    ensures p.id == Str(g.pid) && p.pointType == pointType && p.referenceIndex == 0
    ensures |p.measures| == |g.rows|
    ensures forall j :: 0 <= j < |g.rows| ==> p.measures[j] == MeasureOf(g.rows[j])
  {
    PointMessage(AssignId(g.pid).id, pointType, 0,
      seq(|g.rows|, j requires 0 <= j < |g.rows| => MeasureOf(g.rows[j])))
  }

  /** The rows a reader recovers from a point message's measures. */
  function RowsOf(p: PointMessage): seq<Row>
  {
    seq(|p.measures|, j requires 0 <= j < |p.measures| =>
      Row(p.measures[j].serialNumber, p.measures[j].measureType, p.measures[j].sample, p.measures[j].line))
  }

  /** A point message keeps every row of its group, in order. */
  lemma PointKeepsRows(g: PointGroup, pointType: int)
    ensures RowsOf(PointOf(g, pointType)) == g.rows
  {
  }

  /** The point messages for the whole network, in groupby order. */
  function PointsOf(net: ControlNetwork, pointType: int): (ps: seq<PointMessage>)
    ensures |ps| == |net.groups|
    ensures forall i :: 0 <= i < |ps| ==> ps[i] == PointOf(net.groups[i], pointType)
  {
    seq(|net.groups|, i requires 0 <= i < |net.groups| => PointOf(net.groups[i], pointType))
  }

  /** `create_points`: one serialised point per group, in order, with its byte size.
      `pointType` is the value of POINT_TYPE, which is defined in
      autocnet/control/control.py. */
  method CreatePoints(net: ControlNetwork, pointType: int, encode: PointMessage -> seq<byte>)
    returns (pointMessages: seq<seq<byte>>, pointSizes: seq<nat>)
    ensures |pointMessages| == |pointSizes| == |net.groups|
    ensures forall i :: 0 <= i < |net.groups| ==>
              pointMessages[i] == encode(PointOf(net.groups[i], pointType)) && pointSizes[i] == |pointMessages[i]|
  {
    pointSizes, pointMessages := [], [];
    for i := 0 to |net.groups|
      invariant |pointMessages| == |pointSizes| == i
      invariant forall k :: 0 <= k < i ==>
                  pointMessages[k] == encode(PointOf(net.groups[k], pointType)) && pointSizes[k] == |pointMessages[k]|
    {
      var group := net.groups[i];
      var id := AssignId(group.pid).id;
      var measures: seq<Measure> := [];
      for j := 0 to |group.rows|
        invariant |measures| == j
        invariant forall k :: 0 <= k < j ==> measures[k] == MeasureOf(group.rows[k])
      {
        var row := group.rows[j];
        measures := measures + [Measure(row.nid, row.pointType, row.x, row.y)];
      }
      var pointSpec := PointMessage(id, pointType, 0, measures);
      assert pointSpec == PointOf(group, pointType);
      var pointMessage := encode(pointSpec);
      pointSizes := pointSizes + [|pointMessage|];
      pointMessages := pointMessages + [pointMessage];
    }
  }

  // ----- Headers -----

  /** `create_buffer_header`, before serialisation: the network's dates and the caller's
      names copied verbatim, and the point sizes in order. */
  function CreateBufferHeader(net: ControlNetwork, networkId: string, targetName: string,
                              description: string, userName: string, pointSizes: seq<nat>): (h: BufferHeader)
    ensures h.created == net.creationDate && h.lastModified == net.modifiedDate
    ensures h.networkId == networkId && h.description == description
    ensures h.targetName == targetName && h.userName == userName
    ensures h.pointMessageSizes == pointSizes
  {
    BufferHeader(net.creationDate, net.modifiedDate, networkId, description, targetName, userName, pointSizes)
  }

  /** The value at ProtoBuffer/Core/`key` in a label tree. */
  function CoreValue(tree: seq<PvlEntry>, key: string): Option<PvlValue>
  {
    Get(tree, ["ProtoBuffer", "Core", key])
  }

  /** The value at ProtoBuffer/ControlNetworkInfo/`key` in a label tree. */
  function InfoValue(tree: seq<PvlEntry>, key: string): Option<PvlValue>
  {
    Get(tree, ["ProtoBuffer", "ControlNetworkInfo", key])
  }

  /** The Core group: where the binary sections start and how long they are. */
  function CoreGroup(headerStartByte: int, headerBytes: int, pointsStartByte: int, pointsBytes: int): seq<PvlEntry>
  {
    [PvlEntry("HeaderStartByte", PInt(headerStartByte)),
     PvlEntry("HeaderBytes", PInt(headerBytes)),
     PvlEntry("PointsStartByte", PInt(pointsStartByte)),
     PvlEntry("PointsBytes", PInt(pointsBytes))]
  }

  /** Each Core key finds the value it was built with. */
  lemma CoreGroupFields(headerStartByte: int, headerBytes: int, pointsStartByte: int, pointsBytes: int)
    ensures var g := CoreGroup(headerStartByte, headerBytes, pointsStartByte, pointsBytes);
            && Find(g, "HeaderStartByte") == Some(PInt(headerStartByte))
            && Find(g, "HeaderBytes") == Some(PInt(headerBytes))
            && Find(g, "PointsStartByte") == Some(PInt(pointsStartByte))
            && Find(g, "PointsBytes") == Some(PInt(pointsBytes))
  {
    var g := CoreGroup(headerStartByte, headerBytes, pointsStartByte, pointsBytes);
    FindFirst(g, "HeaderStartByte", 0);
    FindFirst(g, "HeaderBytes", 1);
    FindFirst(g, "PointsStartByte", 2);
    FindFirst(g, "PointsBytes", 3);
  }

  /** No Core key occurs twice, as in the dict the Core group comes from. */
  lemma CoreGroupDistinct(headerStartByte: int, headerBytes: int, pointsStartByte: int, pointsBytes: int)
    ensures DistinctKeys(CoreGroup(headerStartByte, headerBytes, pointsStartByte, pointsBytes))
  {
  }

  /** The Core group holds those four keys and no other. */
  lemma CoreGroupOnly(headerStartByte: int, headerBytes: int, pointsStartByte: int, pointsBytes: int, key: string)
    ensures Find(CoreGroup(headerStartByte, headerBytes, pointsStartByte, pointsBytes), key).Some? <==>
              key == "HeaderStartByte" || key == "HeaderBytes" || key == "PointsStartByte" || key == "PointsBytes"
  {
    var g := CoreGroup(headerStartByte, headerBytes, pointsStartByte, pointsBytes);
    FindSpec(g, key);
    if Find(g, key).None? {
      assert g[0].key != key && g[1].key != key && g[2].key != key && g[3].key != key;
    }
  }

  /** The ControlNetworkInfo group, in the order the label lists it. */
  function InfoGroup(net: ControlNetwork, version: int, networkId: string, targetName: string,
                     description: string, userName: string): seq<PvlEntry>
  {
    [PvlEntry("NetworkId", PText(networkId)),
     PvlEntry("TargetName", PText(targetName)),
     PvlEntry("UserName", PText(userName)),
     PvlEntry("Created", PText(net.creationDate)),
     PvlEntry("LastModified", PText(net.modifiedDate)),
     PvlEntry("Description", PText(description)),
     PvlEntry("NumberOfPoints", PInt(net.n)),
     PvlEntry("NumberOfMeasures", PInt(net.m)),
     PvlEntry("Version", PInt(version))]
  }

  /** Each text-valued ControlNetworkInfo key finds the value it was built with. */
  lemma InfoGroupTexts(net: ControlNetwork, version: int, networkId: string, targetName: string,
                       description: string, userName: string)
    ensures var g := InfoGroup(net, version, networkId, targetName, description, userName);
            && Find(g, "NetworkId") == Some(PText(networkId))
            && Find(g, "TargetName") == Some(PText(targetName))
            && Find(g, "UserName") == Some(PText(userName))
            && Find(g, "Created") == Some(PText(net.creationDate))
            && Find(g, "LastModified") == Some(PText(net.modifiedDate))
            && Find(g, "Description") == Some(PText(description))
  {
    var g := InfoGroup(net, version, networkId, targetName, description, userName);
    FindFirst(g, "NetworkId", 0);
    FindFirst(g, "TargetName", 1);
    FindFirst(g, "UserName", 2);
    FindFirst(g, "Created", 3);
    FindFirst(g, "LastModified", 4);
    FindFirst(g, "Description", 5);
  }

  /** Each integer-valued ControlNetworkInfo key finds the value it was built with. */
  lemma InfoGroupNumbers(net: ControlNetwork, version: int, networkId: string, targetName: string,
                         description: string, userName: string)
    ensures var g := InfoGroup(net, version, networkId, targetName, description, userName);
            && Find(g, "NumberOfPoints") == Some(PInt(net.n))
            && Find(g, "NumberOfMeasures") == Some(PInt(net.m))
            && Find(g, "Version") == Some(PInt(version))
  {
    var g := InfoGroup(net, version, networkId, targetName, description, userName);
    FindFirst(g, "NumberOfPoints", 6);
    FindFirst(g, "NumberOfMeasures", 7);
    FindFirst(g, "Version", 8);
  }

  /** The label tree: a ProtoBuffer object (a plain dict) holding the Core object (a
      plain dict) and the ControlNetworkInfo group (a `PVLGroup`). */
  function LabelTree(core: seq<PvlEntry>, info: seq<PvlEntry>): seq<PvlEntry>
  {
    [PvlEntry("ProtoBuffer", PObject([PvlEntry("Core", PObject(core)), PvlEntry("ControlNetworkInfo", PGroup(info))]))]
  }

  /** A lookup under ProtoBuffer/Core or ProtoBuffer/ControlNetworkInfo is a lookup in
      that block. */
  lemma LabelTreeLookup(core: seq<PvlEntry>, info: seq<PvlEntry>)
    ensures forall key :: CoreValue(LabelTree(core, info), key) == Find(core, key)
    ensures forall key :: InfoValue(LabelTree(core, info), key) == Find(info, key)
  {
    var protoBuffer := PObject([PvlEntry("Core", PObject(core)), PvlEntry("ControlNetworkInfo", PGroup(info))]);
    var tree := LabelTree(core, info);
    FindFirst(tree, "ProtoBuffer", 0);
    FindFirst(protoBuffer.entries, "Core", 0);
    FindFirst(protoBuffer.entries, "ControlNetworkInfo", 1);
    forall key ensures CoreValue(tree, key) == Find(core, key) {
      GetPath3(tree, "ProtoBuffer", "Core", key, protoBuffer, PObject(core));
    }
    forall key ensures InfoValue(tree, key) == Find(info, key) {
      GetPath3(tree, "ProtoBuffer", "ControlNetworkInfo", key, protoBuffer, PGroup(info));
    }
  }

  /** ProtoBuffer and Core are objects holding the given entries, and ControlNetworkInfo
      is a group. */
  lemma LabelTreeBlocks(core: seq<PvlEntry>, info: seq<PvlEntry>)
    ensures var tree := LabelTree(core, info);
            && Get(tree, ["ProtoBuffer"]).Some? && Get(tree, ["ProtoBuffer"]).value.PObject?
            && Get(tree, ["ProtoBuffer", "Core"]) == Some(PObject(core))
            && Get(tree, ["ProtoBuffer", "ControlNetworkInfo"]) == Some(PGroup(info))
  {
    var protoBuffer := PObject([PvlEntry("Core", PObject(core)), PvlEntry("ControlNetworkInfo", PGroup(info))]);
    var tree := LabelTree(core, info);
    FindFirst(tree, "ProtoBuffer", 0);
    FindFirst(protoBuffer.entries, "Core", 0);
    FindFirst(protoBuffer.entries, "ControlNetworkInfo", 1);
    GetPath3(tree, "ProtoBuffer", "Core", "", protoBuffer, PObject(core));
    GetPath3(tree, "ProtoBuffer", "ControlNetworkInfo", "", protoBuffer, PGroup(info));
  }

  /** The ProtoBuffer and Core dicts may hand their items to `pvl.dumps` in any order:
      with `p` any ordering of the ProtoBuffer items and `reordered` any ordering of a
      Core block with distinct keys, every Core and ControlNetworkInfo lookup finds what
      it finds in the label tree as written. */
  lemma LabelAnyOrder(core: seq<PvlEntry>, reordered: seq<PvlEntry>, info: seq<PvlEntry>, p: seq<PvlEntry>,
                      key: string)
    requires DistinctKeys(core) && multiset(reordered) == multiset(core)
    requires multiset(p) == multiset([PvlEntry("Core", PObject(reordered)), PvlEntry("ControlNetworkInfo", PGroup(info))])
    ensures CoreValue([PvlEntry("ProtoBuffer", PObject(p))], key) == CoreValue(LabelTree(core, info), key)
    ensures InfoValue([PvlEntry("ProtoBuffer", PObject(p))], key) == InfoValue(LabelTree(core, info), key)
  {
    var written := [PvlEntry("Core", PObject(reordered)), PvlEntry("ControlNetworkInfo", PGroup(info))];
    var tree := [PvlEntry("ProtoBuffer", PObject(p))];
    FindFirst(written, "Core", 0);
    FindFirst(written, "ControlNetworkInfo", 1);
    FindReorder(written, p, "Core");
    FindReorder(written, p, "ControlNetworkInfo");
    FindFirst(tree, "ProtoBuffer", 0);
    GetPath3(tree, "ProtoBuffer", "Core", key, PObject(p), PObject(reordered));
    GetPath3(tree, "ProtoBuffer", "ControlNetworkInfo", key, PObject(p), PGroup(info));
    FindReorder(core, reordered, key);
    LabelTreeLookup(core, info);
  }

  /** `create_pvl_header`, before `pvl.dumps`: the label tree. */
  function CreatePvlHeader(net: ControlNetwork, version: int, headerStartByte: int,
                           networkId: string, targetName: string, description: string, userName: string,
                           bufferHeaderSize: nat, pointsBytes: nat): seq<PvlEntry>
  {
    var headerBytes := bufferHeaderSize;
    var pointsStartByte := HEADERSTARTBYTE + bufferHeaderSize;
    LabelTree(CoreGroup(headerStartByte, headerBytes, pointsStartByte, pointsBytes),
              InfoGroup(net, version, networkId, targetName, description, userName))
  }

  /** The label's fields and where each value comes from. HeaderStartByte is the
      argument, but PointsStartByte is computed from the constant HEADERSTARTBYTE. */
  lemma PvlHeaderFields(net: ControlNetwork, version: int, headerStartByte: int,
                        networkId: string, targetName: string, description: string, userName: string,
                        bufferHeaderSize: nat, pointsBytes: nat)
    ensures var tree := CreatePvlHeader(net, version, headerStartByte, networkId, targetName, description,
                                        userName, bufferHeaderSize, pointsBytes);
            && CoreValue(tree, "HeaderStartByte") == Some(PInt(headerStartByte))
            && CoreValue(tree, "HeaderBytes") == Some(PInt(bufferHeaderSize))
            && CoreValue(tree, "PointsStartByte") == Some(PInt(HEADERSTARTBYTE + bufferHeaderSize))
            && CoreValue(tree, "PointsBytes") == Some(PInt(pointsBytes))
            && InfoValue(tree, "NetworkId") == Some(PText(networkId))
            && InfoValue(tree, "TargetName") == Some(PText(targetName))
            && InfoValue(tree, "UserName") == Some(PText(userName))
            && InfoValue(tree, "Created") == Some(PText(net.creationDate))
            && InfoValue(tree, "LastModified") == Some(PText(net.modifiedDate))
            && InfoValue(tree, "Description") == Some(PText(description))
            && InfoValue(tree, "NumberOfPoints") == Some(PInt(net.n))
            && InfoValue(tree, "NumberOfMeasures") == Some(PInt(net.m))
            && InfoValue(tree, "Version") == Some(PInt(version))
  {
    var core := CoreGroup(headerStartByte, bufferHeaderSize, HEADERSTARTBYTE + bufferHeaderSize, pointsBytes);
    var info := InfoGroup(net, version, networkId, targetName, description, userName);
    CoreGroupFields(headerStartByte, bufferHeaderSize, HEADERSTARTBYTE + bufferHeaderSize, pointsBytes);
    InfoGroupTexts(net, version, networkId, targetName, description, userName);
    InfoGroupNumbers(net, version, networkId, targetName, description, userName);
    LabelTreeLookup(core, info);
  }

  /** The block kinds of the label: ProtoBuffer and Core are plain dicts and so PVL
      objects, ControlNetworkInfo is a `PVLGroup` and so a PVL group. */
  lemma PvlHeaderBlocks(net: ControlNetwork, version: int, headerStartByte: int,
                        networkId: string, targetName: string, description: string, userName: string,
                        bufferHeaderSize: nat, pointsBytes: nat)
    ensures var tree := CreatePvlHeader(net, version, headerStartByte, networkId, targetName, description,
                                        userName, bufferHeaderSize, pointsBytes);
            && Get(tree, ["ProtoBuffer"]).Some? && Get(tree, ["ProtoBuffer"]).value.PObject?
            && Get(tree, ["ProtoBuffer", "Core"]).Some? && Get(tree, ["ProtoBuffer", "Core"]).value.PObject?
            && Get(tree, ["ProtoBuffer", "ControlNetworkInfo"]).Some?
            && Get(tree, ["ProtoBuffer", "ControlNetworkInfo"]).value.PGroup?
  {
    LabelTreeBlocks(CoreGroup(headerStartByte, bufferHeaderSize, HEADERSTARTBYTE + bufferHeaderSize, pointsBytes),
                    InfoGroup(net, version, networkId, targetName, description, userName));
  }

  /** Whatever order the Core and ProtoBuffer dicts hand their items to `pvl.dumps`,
      the label's Core and ControlNetworkInfo lookups find what they find in the tree
      `create_pvl_header` builds. */
  lemma PvlHeaderAnyOrder(net: ControlNetwork, version: int, headerStartByte: int,
                          networkId: string, targetName: string, description: string, userName: string,
                          bufferHeaderSize: nat, pointsBytes: nat, reordered: seq<PvlEntry>, p: seq<PvlEntry>,
                          key: string)
    requires multiset(reordered)
             == multiset(CoreGroup(headerStartByte, bufferHeaderSize, HEADERSTARTBYTE + bufferHeaderSize, pointsBytes))
    requires multiset(p) == multiset([PvlEntry("Core", PObject(reordered)),
                                      PvlEntry("ControlNetworkInfo",
                                               PGroup(InfoGroup(net, version, networkId, targetName, description,
                                                                userName)))])
    ensures var tree := CreatePvlHeader(net, version, headerStartByte, networkId, targetName, description,
                                        userName, bufferHeaderSize, pointsBytes);
            && CoreValue([PvlEntry("ProtoBuffer", PObject(p))], key) == CoreValue(tree, key)
            && InfoValue([PvlEntry("ProtoBuffer", PObject(p))], key) == InfoValue(tree, key)
  {
    var core := CoreGroup(headerStartByte, bufferHeaderSize, HEADERSTARTBYTE + bufferHeaderSize, pointsBytes);
    CoreGroupDistinct(headerStartByte, bufferHeaderSize, HEADERSTARTBYTE + bufferHeaderSize, pointsBytes);
    LabelAnyOrder(core, reordered, InfoGroup(net, version, networkId, targetName, description, userName), p, key);
  }

  // ----- The store -----

  /** `__init__` replaces a missing or empty mode with 'a'. */
  function EffectiveMode(mode: Option<string>): (m: string)
    ensures m != ""
    ensures mode.Some? && mode.value != "" ==> m == mode.value
    ensures mode.None? || mode.value == "" ==> m == "a"
  {
    if mode.None? || mode.value == "" then "a" else mode.value
  }

  /** The modes `_open` accepts. */
  predicate SupportedMode(mode: string)
  {
    mode == "wb" || mode == "a"
  }

  /** The bytes the file holds right after `open`: 'wb' truncates, 'a' keeps them. */
  function InitialContents(mode: string, existing: seq<byte>): seq<byte>
  {
    if mode == "wb" then [] else existing
  }

  /** `IsisStore`: a path, a mode, and a file handle that is open until `close`. */
  class IsisStore {
    const path: string
    const mode: string
    var handle: Handle?

    ghost predicate Valid()
      reads this, handle
    {
      handle != null ==> !handle.closed && handle.appending == (mode == "a")
    }

    /** The field set-up of `__init__`, before it calls `_open`. */
    constructor (path: string, mode: Option<string>)
      ensures this.path == path && this.mode == EffectiveMode(mode) && handle == null
      ensures Valid()
    {
      this.path := path;
      this.mode := EffectiveMode(mode);
      handle := null;
    }

    /** `_open`: opens the path for 'wb' or 'a' and raises NotImplementedError for any
        other mode. `existing` is what the file at `path` holds beforehand. */
    method Open(existing: seq<byte>) returns (outcome: Outcome<StoreError>)
      modifies this
      ensures outcome.Pass? <==> SupportedMode(mode)
      ensures outcome.Fail? ==> outcome.error == NotImplemented && handle == old(handle)
      ensures outcome.Pass? ==> handle != null && fresh(handle) && !handle.closed
                                && handle.appending == (mode == "a")
                                && handle.contents == InitialContents(mode, existing)
    {
      if mode == "wb" || mode == "a" {
        handle := new Handle(InitialContents(mode, existing), mode == "a");
        outcome := Pass;
      } else {
        outcome := Fail(NotImplemented);
      }
    }

    /** `IsisStore(path, mode)`: the constructor followed by `_open`; fails exactly when
        the mode is not supported. */
    static method Init(path: string, mode: Option<string>, existing: seq<byte>)
      returns (r: Result<IsisStore, StoreError>)
      ensures r.Failure? <==> !SupportedMode(EffectiveMode(mode))
      ensures r.Failure? ==> r.error == NotImplemented
      ensures r.Success? ==> fresh(r.value) && r.value.Valid()
                             && r.value.path == path && r.value.mode == EffectiveMode(mode)
                             && r.value.handle != null && fresh(r.value.handle)
                             && r.value.handle.contents == InitialContents(EffectiveMode(mode), existing)
    {
      var store := new IsisStore(path, mode);
      var outcome := store.Open(existing);
      if outcome.Fail? {
        return Failure(outcome.error);
      }
      return Success(store);
    }

    /** `__enter__` hands back the store itself. */
    method Enter() returns (s: IsisStore)
      ensures s == this
    {
      s := this;
    }

    /** `write`: seek to the absolute `offset`, then write. On a 'wb' handle exactly the
        bytes [offset, offset + |data|) change; an 'a' handle appends. */
    method Write(data: seq<byte>, offset: nat := 0)
      requires Valid() && handle != null
      modifies handle
      ensures Valid()
      ensures handle.appending ==> handle.contents == old(handle.contents) + data
      ensures !handle.appending ==> handle.contents == WriteAt(old(handle.contents), offset, data)
    {
      handle.Seek(offset);
      handle.Write(data);
    }

    /** `close`: closes the handle if there is one and forgets it; a second call finds
        no handle and changes nothing. */
    method Close()
      modifies this, handle
      ensures handle == null
      ensures old(handle) != null ==> old(handle).closed && old(handle).contents == old(handle.contents)
      ensures Valid()
    {
      if handle != null {
        handle.Close();
      }
      handle := null;
    }

    /** `__exit__` always closes. */
    method Exit()
      modifies this, handle
      ensures handle == null
      ensures old(handle) != null ==> old(handle).closed && old(handle).contents == old(handle.contents)
      ensures Valid()
    {
      Close();
    }
  }

  // ----- The whole write -----

  /** Everything `to_isis` computes before and while writing. */
  datatype Plan = Plan(
    pointMessages: seq<seq<byte>>,
    pointSizes: seq<nat>,
    bufferHeader: BufferHeader,
    bufferHeaderBytes: seq<byte>,
    tree: seq<PvlEntry>,
    text: seq<byte>)

  function PlanOf(net: ControlNetwork, pointType: int, version: int, headerStartByte: int,
                  names: NetworkNames, enc: Encoders): Plan
  {
    var points := PointsOf(net, pointType);
    var messages := seq(|points|, i requires 0 <= i < |points| => enc.point(points[i]));
    var sizes := Lengths(messages);
    var header := CreateBufferHeader(net, names.networkId, names.targetName, names.description, names.userName, sizes);
    var headerBytes := enc.header(header);
    var tree := CreatePvlHeader(net, version, headerStartByte, names.networkId, names.targetName,
                                 names.description, names.userName, |headerBytes|, Sum(sizes));
    Plan(messages, sizes, header, headerBytes, tree, enc.dumps(tree))
  }

  /** The bytes `to_isis` leaves in the file: for 'wb', the buffer header and the
      points written in one piece at HEADERSTARTBYTE on the truncated file (nothing at
      all when both are empty), then the text written over offset 0; for 'a',
      everything appended in the order written. */
  function FileAfter(plan: Plan, mode: string, existing: seq<byte>): seq<byte>
  {
    if mode == "wb" then
      WriteAt(WriteAt([], HEADERSTARTBYTE, plan.bufferHeaderBytes + Flatten(plan.pointMessages)), 0, plan.text)
    else
      existing + plan.bufferHeaderBytes + Flatten(plan.pointMessages) + plan.text
  }

  /** The file after some points were written from the points start on: on an 'a'
      handle the old bytes followed by those points; on a 'wb' handle the same file as
      writing them in one piece at the points start, ending at the running offset
      `offset` unless nothing was written yet. */
  ghost predicate PointsSoFar(contents: seq<byte>, written: seq<byte>, appending: bool, pointsStart: nat,
                              prefix: seq<byte>, offset: nat)
  {
    if appending then contents == written + prefix
    else
      && contents == WriteAt(written, pointsStart, prefix)
      && (contents != [] ==> |contents| == offset)
      && (contents == [] ==> offset == pointsStart)
  }

  /** The loop of `to_isis`: point `i` is written at the points start plus the sizes of
      the points before it. On an 'a' handle the points are appended in order; on a 'wb'
      handle that is empty or ends at the points start, the points land one after
      another, as if written in one piece at the points start. */
  method WritePoints(store: IsisStore, pointMessages: seq<seq<byte>>, pointSizes: seq<nat>, pointsStart: nat)
    requires store.Valid() && store.handle != null
    requires pointSizes == Lengths(pointMessages)
    requires !store.handle.appending ==> store.handle.contents == [] || |store.handle.contents| == pointsStart
    modifies store.handle
    ensures store.Valid() && store.handle == old(store.handle)
    ensures store.handle.appending ==> store.handle.contents == old(store.handle.contents) + Flatten(pointMessages)
    ensures !store.handle.appending ==>
              store.handle.contents == WriteAt(old(store.handle.contents), pointsStart, Flatten(pointMessages))
  {
    var handle := store.handle;
    ghost var written := handle.contents;
    var pointStartOffset := pointsStart;
    assert pointMessages[..0] == [];
    if !handle.appending {
      WriteAtOnto(written, pointsStart, []);
    }
    for i := 0 to |pointMessages|
      invariant store.handle == handle && store.Valid()
      invariant pointStartOffset == PointOffset(pointsStart, pointSizes, i)
      invariant PointsSoFar(handle.contents, written, handle.appending, pointsStart, Flatten(pointMessages[..i]),
                            pointStartOffset)
    {
      ghost var before := handle.contents;
      ghost var prefix := Flatten(pointMessages[..i]);
      var point := pointMessages[i];
      store.Write(point, pointStartOffset);
      assert pointMessages[..i + 1][..i] == pointMessages[..i];
      assert Flatten(pointMessages[..i + 1]) == prefix + point;
      PointStep(written, handle.appending, pointsStart, prefix, before, handle.contents, pointStartOffset, point);
      OffsetsContiguous(pointsStart, pointSizes, i);
      pointStartOffset := pointStartOffset + pointSizes[i];
    }
    assert pointMessages[..|pointMessages|] == pointMessages;
  }

  /** One pass of the loop: writing the next point at the running offset keeps the file
      the one of the points so far and this one, with the running offset advanced by
      the point's size. */
  lemma PointStep(written: seq<byte>, appending: bool, pointsStart: nat, prefix: seq<byte>, before: seq<byte>,
                  after: seq<byte>, offset: nat, point: seq<byte>)
    requires !appending ==> written == [] || |written| == pointsStart
    requires PointsSoFar(before, written, appending, pointsStart, prefix, offset)
    requires appending ==> after == before + point
    requires !appending ==> after == WriteAt(before, offset, point)
    ensures PointsSoFar(after, written, appending, pointsStart, prefix + point, offset + |point|)
  {
    if appending {
      assert written + prefix + point == written + (prefix + point);
    }
  }

  /** The values `to_isis` computes are the ones its plan describes. */
  lemma PlanOfParts(net: ControlNetwork, pointType: int, version: int, headerStartByte: int,
                    names: NetworkNames, enc: Encoders, pointMessages: seq<seq<byte>>, pointSizes: seq<nat>)
    requires |pointMessages| == |pointSizes| == |net.groups|
    requires forall i :: 0 <= i < |net.groups| ==>
               pointMessages[i] == enc.point(PointOf(net.groups[i], pointType)) && pointSizes[i] == |pointMessages[i]|
    ensures var plan := PlanOf(net, pointType, version, headerStartByte, names, enc);
            && plan.pointMessages == pointMessages
            && plan.pointSizes == pointSizes
            && plan.bufferHeader == CreateBufferHeader(net, names.networkId, names.targetName,
                                                       names.description, names.userName, pointSizes)
            && plan.bufferHeaderBytes == enc.header(plan.bufferHeader)
            && plan.tree == CreatePvlHeader(net, version, headerStartByte, names.networkId, names.targetName,
                                            names.description, names.userName,
                                            |plan.bufferHeaderBytes|, Sum(pointSizes))
            && plan.text == enc.dumps(plan.tree)
  {
    var plan := PlanOf(net, pointType, version, headerStartByte, names, enc);
    assert plan.pointMessages == pointMessages;
    assert plan.pointSizes == pointSizes;
  }

  /** `to_isis`: open the store, encode the points and the buffer header, write the
      header at HEADERSTARTBYTE and each point at its running offset, write the text
      label at offset 0, and close. The result is the file's content at close, or the
      error raised when opening. `existing` is what the file at `path` holds beforehand. */
  method ToIsis(path: string, net: ControlNetwork, enc: Encoders, pointType: int, existing: seq<byte>,
                mode: Option<string> := Some("w"), version: int := VERSION,
                headerStartByte: int := HEADERSTARTBYTE,
                networkId: string := "None", targetName: string := "None",
                description: string := "None", userName: string := DEFAULTUSERNAME)
    returns (r: Result<seq<byte>, StoreError>)
    ensures r.Failure? <==> !SupportedMode(EffectiveMode(mode))
    ensures r.Failure? ==> r.error == NotImplemented
    ensures r.Success? ==>
              r.value == FileAfter(PlanOf(net, pointType, version, headerStartByte,
                                          NetworkNames(networkId, targetName, description, userName), enc),
                                   EffectiveMode(mode), existing)
  {
    var storeOrError := IsisStore.Init(path, mode, existing);
    if storeOrError.Failure? {
      return Failure(storeOrError.error);
    }
    var store := storeOrError.value;
    store := store.Enter();
    var handle := store.handle;
    ghost var wb := store.mode == "wb";

    var pointMessages, pointSizes := CreatePoints(net, pointType, enc.point);
    ghost var plan := PlanOf(net, pointType, version, headerStartByte,
                             NetworkNames(networkId, targetName, description, userName), enc);
    PlanOfParts(net, pointType, version, headerStartByte,
                NetworkNames(networkId, targetName, description, userName), enc, pointMessages, pointSizes);
    var pointsBytes := Sum(pointSizes);
    var bufferHeader := enc.header(CreateBufferHeader(net, networkId, targetName, description, userName, pointSizes));
    var bufferHeaderSize := |bufferHeader|;

    store.Write(bufferHeader, HEADERSTARTBYTE);
    assert !handle.appending ==> handle.contents == [] || |handle.contents| == HEADERSTARTBYTE + bufferHeaderSize by {
      if wb {
        WriteAtOnto([], HEADERSTARTBYTE, bufferHeader);
      }
    }

    WritePoints(store, pointMessages, pointSizes, HEADERSTARTBYTE + bufferHeaderSize);
    ghost var body := if wb then WriteAt([], HEADERSTARTBYTE, bufferHeader + Flatten(pointMessages))
                      else existing + bufferHeader + Flatten(pointMessages);
    assert handle.contents == body by {
      if wb {
        WriteAtConsecutive(HEADERSTARTBYTE, bufferHeader, Flatten(pointMessages));
      }
    }

    var header := CreatePvlHeader(net, version, headerStartByte, networkId, targetName, description,
                                  userName, bufferHeaderSize, pointsBytes);
    assert enc.dumps(header) == plan.text;
    store.Write(enc.dumps(header));
    assert handle.contents == if wb then WriteAt(body, 0, plan.text) else body + plan.text;
    store.Exit();
    r := Success(handle.contents);
  }
  // ----- What the written file holds -----

  /** A reader's view of a binary section: the bytes the label's Core group points at
      through `startKey` and `lengthKey`, when both are integers inside the file. */
  function ReadSection(file: seq<byte>, tree: seq<PvlEntry>, startKey: string, lengthKey: string): Option<seq<byte>>
  {
    match (CoreValue(tree, startKey), CoreValue(tree, lengthKey))
    case (Some(PInt(start)), Some(PInt(length))) =>
      if 0 <= start && 0 <= length && start + length <= |file| then Some(file[start..start + length]) else None
    case _ => None
  }

  /** A section whose Core values lie inside the file reads as those bytes. */
  lemma ReadSectionAt(file: seq<byte>, tree: seq<PvlEntry>, startKey: string, lengthKey: string, start: nat, length: nat)
    requires CoreValue(tree, startKey) == Some(PInt(start)) && CoreValue(tree, lengthKey) == Some(PInt(length))
    requires start + length <= |file|
    ensures ReadSection(file, tree, startKey, lengthKey) == Some(file[start..start + length])
  {
  }

  /** The plan `to_isis` follows for a given network, written with the label's
      HeaderStartByte equal to HEADERSTARTBYTE. */
  function DefaultPlan(net: ControlNetwork, pointType: int, version: int, names: NetworkNames, enc: Encoders): Plan
  {
    PlanOf(net, pointType, version, HEADERSTARTBYTE, names, enc)
  }

  /** The sizes in a plan are the lengths of its point records, and the buffer header
      lists exactly those sizes. */
  ghost predicate SizesMatch(plan: Plan)
  {
    plan.pointSizes == Lengths(plan.pointMessages) && plan.bufferHeader.pointMessageSizes == plan.pointSizes
  }

  /** The plan of `to_isis` has one record per group, in order, and its sizes match. */
  lemma PlanSizes(net: ControlNetwork, pointType: int, version: int, headerStartByte: int,
                  names: NetworkNames, enc: Encoders)
    ensures var plan := PlanOf(net, pointType, version, headerStartByte, names, enc);
            && SizesMatch(plan)
            && |plan.pointMessages| == |net.groups|
            && (forall i :: 0 <= i < |net.groups| ==> plan.pointMessages[i] == enc.point(PointOf(net.groups[i], pointType)))
  {
  }

  /** A record packed after any prefix sits at the prefix length plus its running offset. */
  lemma RecordAfter(prefix: seq<byte>, records: seq<seq<byte>>, i: nat)
    requires i < |records|
    ensures var sizes := Lengths(records);
            var off := PointOffset(|prefix|, sizes, i);
            && off + sizes[i] <= |prefix + Flatten(records)|
            && (prefix + Flatten(records))[off..off + sizes[i]] == records[i]
  {
    var points := Flatten(records);
    FlattenAt(records, i);
    var off := PointOffset(0, Lengths(records), i);
    assert (prefix + points)[|prefix| + off..|prefix| + off + |records[i]|] == points[off..off + |records[i]|];
  }

  /** Each record lies in `file` at its running offset from `start`. */
  ghost predicate RecordsAt(file: seq<byte>, start: nat, records: seq<seq<byte>>, sizes: seq<nat>)
  {
    && |sizes| == |records|
    && forall i :: 0 <= i < |records| ==>
         var offset := PointOffset(start, sizes, i);
         offset + sizes[i] <= |file| && file[offset..offset + sizes[i]] == records[i]
  }

  /** Every record packed after any prefix sits at the prefix length plus its running offset. */
  lemma RecordsAfter(file: seq<byte>, prefix: seq<byte>, start: nat, records: seq<seq<byte>>, sizes: seq<nat>)
    requires file == prefix + Flatten(records) && start == |prefix| && sizes == Lengths(records)
    ensures RecordsAt(file, start, records, sizes)
  {
    forall i | 0 <= i < |records|
      ensures var offset := PointOffset(start, sizes, i);
              offset + sizes[i] <= |file| && file[offset..offset + sizes[i]] == records[i]
    {
      RecordAfter(prefix, records, i);
    }
  }


  /** Writing a text that fits below HEADERSTARTBYTE over offset 0 leaves zero padding
      between the text and HEADERSTARTBYTE and everything after it untouched. */
  lemma TextOverPadding(text: seq<byte>, rest: seq<byte>)
    requires |text| <= HEADERSTARTBYTE
    ensures WriteAt(Zeros(HEADERSTARTBYTE) + rest, 0, text) == text + Zeros(HEADERSTARTBYTE - |text|) + rest
  {
  }

  /** A 'wb' write as one concatenation: the text, zero padding up to HEADERSTARTBYTE,
      the header and the packed records. */
  lemma PackedBytes(text: seq<byte>, hdr: seq<byte>, records: seq<seq<byte>>)
    requires |text| <= HEADERSTARTBYTE
    ensures WriteAt(Zeros(HEADERSTARTBYTE) + hdr + Flatten(records), 0, text)
            == text + Zeros(HEADERSTARTBYTE - |text|) + hdr + Flatten(records)
  {
  }

  /** The regions of a 'wb' write: the text, zeros up to HEADERSTARTBYTE, the header,
      and the packed records up to the end of the file. */
  lemma PackedRegions(text: seq<byte>, hdr: seq<byte>, records: seq<seq<byte>>)
    requires |text| <= HEADERSTARTBYTE
    ensures var file := WriteAt(Zeros(HEADERSTARTBYTE) + hdr + Flatten(records), 0, text);
            var pointsStart := HEADERSTARTBYTE + |hdr|;
            && |file| == pointsStart + Sum(Lengths(records))
            && file[..|text|] == text
            && (forall k :: |text| <= k < HEADERSTARTBYTE ==> file[k] == 0)
            && file[HEADERSTARTBYTE..pointsStart] == hdr
            && file[pointsStart..] == Flatten(records)
  {
    var points := Flatten(records);
    var padding := Zeros(HEADERSTARTBYTE - |text|);
    PackedBytes(text, hdr, records);
    FlattenLength(records);
    var file := text + padding + hdr + points;
    assert file[..|text|] == text;
    assert forall k :: |text| <= k < HEADERSTARTBYTE ==> file[k] == padding[k - |text|];
    assert file[HEADERSTARTBYTE..HEADERSTARTBYTE + |hdr|] == hdr;
    assert file[HEADERSTARTBYTE + |hdr|..] == points;
  }

  /** In the text, the padding, the header and the packed records, concatenated, every
      record sits at its running offset from HEADERSTARTBYTE plus the header size. */
  lemma PackedRecords(file: seq<byte>, text: seq<byte>, hdr: seq<byte>, records: seq<seq<byte>>, sizes: seq<nat>)
    requires |text| <= HEADERSTARTBYTE
    requires file == text + Zeros(HEADERSTARTBYTE - |text|) + hdr + Flatten(records)
    requires sizes == Lengths(records)
    ensures RecordsAt(file, HEADERSTARTBYTE + |hdr|, records, sizes)
  {
    var prefix := text + Zeros(HEADERSTARTBYTE - |text|) + hdr;
    assert |prefix| == HEADERSTARTBYTE + |hdr|;
    assert file == prefix + Flatten(records);
    RecordsAfter(file, prefix, HEADERSTARTBYTE + |hdr|, records, sizes);
  }

  /** The layout a reader expects of a 'wb' file: the text at offset 0, zeros up to
      HEADERSTARTBYTE, the header there, the packed records after it up to the end of the
      file, and each record at its running offset. */
  ghost predicate PackedFile(file: seq<byte>, text: seq<byte>, hdr: seq<byte>, records: seq<seq<byte>>,
                             sizes: seq<nat>)
  {
    var pointsStart := HEADERSTARTBYTE + |hdr|;
    && sizes == Lengths(records)
    && |text| <= HEADERSTARTBYTE
    && |file| == pointsStart + Sum(sizes)
    && file[..|text|] == text
    && (forall k :: |text| <= k < HEADERSTARTBYTE ==> file[k] == 0)
    && file[HEADERSTARTBYTE..pointsStart] == hdr
    && file[pointsStart..] == Flatten(records)
    && RecordsAt(file, pointsStart, records, sizes)
  }

  /** The bytes of a 'wb' write, in general: the text written over offset 0 of zero
      padding, a header at HEADERSTARTBYTE and the records packed after it have the
      layout a reader expects. */
  lemma PackedLayout(file: seq<byte>, text: seq<byte>, hdr: seq<byte>, records: seq<seq<byte>>, sizes: seq<nat>)
    requires |text| <= HEADERSTARTBYTE
    requires file == WriteAt(Zeros(HEADERSTARTBYTE) + hdr + Flatten(records), 0, text)
    requires sizes == Lengths(records)
    ensures PackedFile(file, text, hdr, records, sizes)
  {
    PackedRegions(text, hdr, records);
    PackedBytes(text, hdr, records);
    PackedRecords(file, text, hdr, records, sizes);
  }


  /** A plan whose buffer header and points hold at least one byte between them. */
  ghost predicate WritesBody(plan: Plan)
  {
    plan.bufferHeaderBytes != [] || Flatten(plan.pointMessages) != []
  }

  /** When some header or point bytes are written, a 'wb' file is the text written over
      zero padding up to HEADERSTARTBYTE followed by the header and the points. */
  lemma WbBody(plan: Plan, existing: seq<byte>)
    requires WritesBody(plan)
    ensures FileAfter(plan, "wb", existing)
            == WriteAt(Zeros(HEADERSTARTBYTE) + plan.bufferHeaderBytes + Flatten(plan.pointMessages), 0, plan.text)
  {
  }

  /** When the buffer header and every point encode to no bytes, the seeks write nothing
      and the 'wb' file holds only the text, so no section the label names is there. */
  lemma EmptyBody(plan: Plan, existing: seq<byte>)
    requires plan.bufferHeaderBytes == [] && Flatten(plan.pointMessages) == []
    ensures FileAfter(plan, "wb", existing) == plan.text
  {
  }

  /** In 'wb' mode with a text label that fits below HEADERSTARTBYTE, the file is the
      text, zero padding up to HEADERSTARTBYTE, the buffer header, and the points, each
      at its running offset; the file ends where the last point ends. */
  lemma WbFileLayout(plan: Plan, existing: seq<byte>)
    requires SizesMatch(plan) && WritesBody(plan) && |plan.text| <= HEADERSTARTBYTE
    ensures PackedFile(FileAfter(plan, "wb", existing), plan.text, plan.bufferHeaderBytes, plan.pointMessages,
                       plan.pointSizes)
  {
    WbBody(plan, existing);
    PackedLayout(FileAfter(plan, "wb", existing), plan.text, plan.bufferHeaderBytes, plan.pointMessages,
                 plan.pointSizes);
  }

  /** A plan whose label holds the Core values `to_isis` puts there, with
      HeaderStartByte equal to HEADERSTARTBYTE. */
  ghost predicate CoreAgrees(plan: Plan)
  {
    && SizesMatch(plan)
    && CoreValue(plan.tree, "HeaderStartByte") == Some(PInt(HEADERSTARTBYTE))
    && CoreValue(plan.tree, "HeaderBytes") == Some(PInt(|plan.bufferHeaderBytes|))
    && CoreValue(plan.tree, "PointsStartByte") == Some(PInt(HEADERSTARTBYTE + |plan.bufferHeaderBytes|))
    && CoreValue(plan.tree, "PointsBytes") == Some(PInt(Sum(plan.pointSizes)))
  }

  /** The plan `to_isis` follows with the default HeaderStartByte has those Core values. */
  lemma DefaultPlanCoreAgrees(net: ControlNetwork, pointType: int, version: int, names: NetworkNames, enc: Encoders)
    ensures CoreAgrees(DefaultPlan(net, pointType, version, names, enc))
  {
    PlanSizes(net, pointType, version, HEADERSTARTBYTE, names, enc);
    var plan := DefaultPlan(net, pointType, version, names, enc);
    PvlHeaderFields(net, version, HEADERSTARTBYTE, names.networkId, names.targetName, names.description,
                    names.userName, |plan.bufferHeaderBytes|, Sum(plan.pointSizes));
  }

  /** Reading a 'wb' file through its label gives back the buffer header, the points
      region, and, cut by the buffer header's sizes, every point record. */
  lemma ReadBack(plan: Plan, existing: seq<byte>)
    requires CoreAgrees(plan) && WritesBody(plan) && |plan.text| <= HEADERSTARTBYTE
    ensures var file := FileAfter(plan, "wb", existing);
            && ReadSection(file, plan.tree, "HeaderStartByte", "HeaderBytes") == Some(plan.bufferHeaderBytes)
            && ReadSection(file, plan.tree, "PointsStartByte", "PointsBytes") == Some(Flatten(plan.pointMessages))
            && CoreValue(plan.tree, "PointsBytes") == Some(PInt(|file| - HEADERSTARTBYTE - |plan.bufferHeaderBytes|))
            && |Flatten(plan.pointMessages)| == Sum(plan.bufferHeader.pointMessageSizes)
            && Split(Flatten(plan.pointMessages), plan.bufferHeader.pointMessageSizes) == plan.pointMessages
  {
    var file := FileAfter(plan, "wb", existing);
    var headerSize := |plan.bufferHeaderBytes|;
    var pointsStart := HEADERSTARTBYTE + headerSize;
    var pointsBytes := Sum(plan.pointSizes);
    PackedRegions(plan.text, plan.bufferHeaderBytes, plan.pointMessages);
    WbBody(plan, existing);
    ReadSectionAt(file, plan.tree, "HeaderStartByte", "HeaderBytes", HEADERSTARTBYTE, headerSize);
    ReadSectionAt(file, plan.tree, "PointsStartByte", "PointsBytes", pointsStart, pointsBytes);
    assert file[pointsStart..pointsStart + pointsBytes] == file[pointsStart..];
    SplitFlatten(plan.pointMessages);
  }

  /** When HeaderStartByte is HEADERSTARTBYTE and the text fits below it, a reader that
      follows the label of the file `to_isis` writes finds the buffer header and the
      points region exactly where they were written, and cutting the points region by
      the buffer header's pointMessageSizes gives back every point record in order. */
  lemma LabelMatchesFile(net: ControlNetwork, pointType: int, version: int, names: NetworkNames,
                         enc: Encoders, existing: seq<byte>)
    requires WritesBody(DefaultPlan(net, pointType, version, names, enc))
    requires |DefaultPlan(net, pointType, version, names, enc).text| <= HEADERSTARTBYTE
    ensures var plan := DefaultPlan(net, pointType, version, names, enc);
            var file := FileAfter(plan, "wb", existing);
            && ReadSection(file, plan.tree, "HeaderStartByte", "HeaderBytes") == Some(plan.bufferHeaderBytes)
            && ReadSection(file, plan.tree, "PointsStartByte", "PointsBytes") == Some(Flatten(plan.pointMessages))
            && |Flatten(plan.pointMessages)| == Sum(plan.bufferHeader.pointMessageSizes)
            && Split(Flatten(plan.pointMessages), plan.bufferHeader.pointMessageSizes) == plan.pointMessages
  {
    DefaultPlanCoreAgrees(net, pointType, version, names, enc);
    ReadBack(DefaultPlan(net, pointType, version, names, enc), existing);
  }

  /** With any other HeaderStartByte the label contradicts itself: the buffer header it
      describes does not end where PointsStartByte says the points begin. */
  lemma HeaderStartByteMismatch(net: ControlNetwork, pointType: int, version: int, headerStartByte: int,
                                names: NetworkNames, enc: Encoders)
    requires headerStartByte != HEADERSTARTBYTE
    ensures var tree := PlanOf(net, pointType, version, headerStartByte, names, enc).tree;
            exists start, length, pointsStart ::
              && CoreValue(tree, "HeaderStartByte") == Some(PInt(start))
              && CoreValue(tree, "HeaderBytes") == Some(PInt(length))
              && CoreValue(tree, "PointsStartByte") == Some(PInt(pointsStart))
              && start + length != pointsStart
  {
    var plan := PlanOf(net, pointType, version, headerStartByte, names, enc);
    var length := |plan.bufferHeaderBytes|;
    PvlHeaderFields(net, version, headerStartByte, names.networkId, names.targetName, names.description,
                    names.userName, length, Sum(plan.pointSizes));
    assert CoreValue(plan.tree, "HeaderStartByte") == Some(PInt(headerStartByte));
    assert CoreValue(plan.tree, "HeaderBytes") == Some(PInt(length));
    assert CoreValue(plan.tree, "PointsStartByte") == Some(PInt(HEADERSTARTBYTE + length));
  }

  /** A text label longer than HEADERSTARTBYTE overwrites the start of the buffer header. */
  lemma TextOverflow(plan: Plan, existing: seq<byte>)
    requires |plan.text| > HEADERSTARTBYTE
    ensures FileAfter(plan, "wb", existing)[HEADERSTARTBYTE] == plan.text[HEADERSTARTBYTE]
  {
  }

  // ----- Counts -----

  function RowCount(groups: seq<PointGroup>): nat
  {
    if groups == [] then 0 else RowCount(groups[..|groups| - 1]) + |groups[|groups| - 1].rows|
  }

  function MeasureCount(points: seq<PointMessage>): nat
  {
    if points == [] then 0 else MeasureCount(points[..|points| - 1]) + |points[|points| - 1].measures|
  }

  /** Point messages with as many measures as their groups have rows hold as many
      measures in all as the groups hold rows. */
  lemma {:induction false} MeasureCountIsRowCount(groups: seq<PointGroup>, points: seq<PointMessage>)
    requires |points| == |groups|
    requires forall i :: 0 <= i < |groups| ==> |points[i].measures| == |groups[i].rows|
    ensures MeasureCount(points) == RowCount(groups)
  {
    if groups != [] {
      MeasureCountIsRowCount(groups[..|groups| - 1], points[..|points| - 1]);
    }
  }

  /** When the network's own counts are right, NumberOfPoints is the number of point
      records written and NumberOfMeasures the number of measures inside them. */
  lemma LabelCounts(net: ControlNetwork, pointType: int, version: int, headerStartByte: int,
                    names: NetworkNames, enc: Encoders)
    requires net.n == |net.groups| && net.m == RowCount(net.groups)
    ensures var plan := PlanOf(net, pointType, version, headerStartByte, names, enc);
            && InfoValue(plan.tree, "NumberOfPoints") == Some(PInt(|plan.pointMessages|))
            && InfoValue(plan.tree, "NumberOfMeasures") == Some(PInt(MeasureCount(PointsOf(net, pointType))))
  {
    var plan := PlanOf(net, pointType, version, headerStartByte, names, enc);
    MeasureCountIsRowCount(net.groups, PointsOf(net, pointType));
    PvlHeaderFields(net, version, headerStartByte, names.networkId, names.targetName, names.description,
                    names.userName, |plan.bufferHeaderBytes|, Sum(plan.pointSizes));
    assert InfoValue(plan.tree, "NumberOfMeasures") == Some(PInt(net.m));
  }

  /** An empty network gives an empty size list and a points region of zero bytes. */
  lemma EmptyNetwork(net: ControlNetwork, pointType: int, version: int, headerStartByte: int,
                     names: NetworkNames, enc: Encoders)
    requires net.groups == []
    ensures var plan := PlanOf(net, pointType, version, headerStartByte, names, enc);
            && plan.bufferHeader.pointMessageSizes == []
            && CoreValue(plan.tree, "PointsBytes") == Some(PInt(0))
            && Flatten(plan.pointMessages) == []
  {
    var plan := PlanOf(net, pointType, version, headerStartByte, names, enc);
    PvlHeaderFields(net, version, headerStartByte, names.networkId, names.targetName, names.description,
                    names.userName, |plan.bufferHeaderBytes|, Sum(plan.pointSizes));
  }
}
