# ISIS control network writer (autocnet `io_controlnetwork`)

This project models how autocnet writes a control network in the ISIS version 2
binary format, and proves properties of that model. The file has three regions:

- a textual PVL label at offset 0;
- a protobuf buffer header at HEADERSTARTBYTE (65536);
- the serialised point records, packed one after another right after the buffer header.

The label's Core group tells a reader where the other two regions are. The whole file
is correct only if those numbers agree with where the bytes were written.

The modules are:

- `FileBytes`: the file as a `seq<byte>`. `WriteAt` is a seek followed by a write.
  Writing bytes past the end leaves a zero-filled gap. A seek followed by a write of no
  bytes changes nothing, even past the end. `Handle` is a class standing for a
  Python file object. A 'wb' handle starts empty and writes at its position. An 'a'
  handle keeps the old bytes and always appends.
- `Layout`: sums of sizes, the concatenation of records (`Flatten`), the running offset
  of record `i` (`PointOffset`), and the reader's inverse `Split`.
- `Decimal`: `str()` of an integer, with a read-back round trip and injectivity.
- `Pvl`: the label as a key-value tree whose blocks are either PVL objects (written for
  a plain dict) or PVL groups (written for a `PVLGroup`), with lookups by key (`Find`)
  and by path (`Get`).
- `ControlNetworkIo` holds:
  - the network as an ordered sequence of point groups (pid, rows);
  - `create_points`, `create_buffer_header` and `create_pvl_header`;
  - `IsisStore` as a class, with a nullable handle field;
  - `to_isis` as a method, with its offset loop in `WritePoints`;
  - lemmas about the bytes `to_isis` leaves in the file.

Protobuf serialisation and `pvl.dumps` are not part of the model. They are
function-valued parameters (`Encoders`), and a record's size is the length of its
encoding. Also not part of the model: the file system, the existing bytes at `path`
(a parameter), and POINT_TYPE (a parameter, because autocnet/control/control.py is not
part of this model).

Behaviour of the code that the model keeps as written:

- `to_isis` defaults to mode 'w', which `_open` rejects with NotImplementedError.
  `ToIsis` therefore fails, with `NotImplemented`, exactly when the effective mode is
  neither 'wb' nor 'a'. A missing or empty mode becomes 'a', as in `IsisStore.__init__`.
- The buffer header and the points are always written at the constant HEADERSTARTBYTE.
  PointsStartByte is also computed from the constant. HeaderStartByte, however, is the
  `headerstartbyte` argument. The label agrees with the file only when the two are
  equal. `LabelMatchesFile` is stated for that case (`DefaultPlan`), and
  `HeaderStartByteMismatch` shows that any other value makes the label contradict itself.
- Nothing checks that the text label fits below HEADERSTARTBYTE. The layout lemmas take
  that as a requirement, and `TextOverflow` shows that a longer label overwrites the
  buffer header.
- The code defines no encoding error of its own and never compares a declared size with
  the bytes written, so the model has neither. A point with no measures gives an encoded point
  with an empty measure list, and an empty network gives an empty size list and zero
  points bytes (`EmptyNetwork`).
- When the buffer header and every point encode to no bytes, the seeks write nothing and
  a 'wb' file holds only the label text (`EmptyBody`). The layout and read-back lemmas
  therefore require at least one header or point byte (`WritesBody`).

## Model

| member | source | states |
|---|---|---|
| ControlNetworkIo.AssignId | autocnet/fileio/io_controlnetwork.py:158-161 | The id is always the text form of the pid, and the assignment never fails. It is stored directly exactly when the pid is already a string; otherwise it falls back to str(pid). |
| ControlNetworkIo.AssignIdInjective | autocnet/fileio/io_controlnetwork.py:158-161 | Two pids of the same kind that receive the same id are the same pid, so the fallback never merges two integer pids. |
| Decimal.NatToDecimalRoundTrip | autocnet/fileio/io_controlnetwork.py:161 | Reading back the digits of str(n) gives n. |
| Decimal.SignOfDecimal | autocnet/fileio/io_controlnetwork.py:161 | str(n) is non-empty and starts with a minus sign exactly when n is negative. |
| Decimal.IntToDecimalInjective | autocnet/fileio/io_controlnetwork.py:161 | Different integers have different str() texts. |
| ControlNetworkIo.MeasureOf | autocnet/fileio/io_controlnetwork.py:170-174 | A measure copies nid, point_type, x and y into serialnumber, type, sample and line unchanged. |
| ControlNetworkIo.PointOf | autocnet/fileio/io_controlnetwork.py:155-177 | A point has id str(pid), type POINT_TYPE and referenceIndex 0. It has one measure per row, in row order, each copied from its row. |
| ControlNetworkIo.PointKeepsRows | autocnet/fileio/io_controlnetwork.py:168-177 | The rows can be read back from a point's measures, all of them and in order. |
| ControlNetworkIo.PointsOf | autocnet/fileio/io_controlnetwork.py:153-181 | One point per group, in groupby order. |
| ControlNetworkIo.CreatePoints | autocnet/fileio/io_controlnetwork.py:151-183 | The two lists have one entry per group and equal lengths. Entry i is the encoding of group i's point, and size i is that encoding's length. |
| ControlNetworkIo.CreateBufferHeader | autocnet/fileio/io_controlnetwork.py:219-226 | The dates and the caller's names are copied verbatim, and pointMessageSizes equals the point sizes element for element, in order. |
| ControlNetworkIo.CoreGroupFields | autocnet/fileio/io_controlnetwork.py:282-285 | Each of the four Core keys finds the value it was given. |
| ControlNetworkIo.CoreGroupOnly | autocnet/fileio/io_controlnetwork.py:282-285 | A key is found in the Core group exactly when it is one of HeaderStartByte, HeaderBytes, PointsStartByte and PointsBytes. |
| ControlNetworkIo.InfoGroupTexts | autocnet/fileio/io_controlnetwork.py:287-293 | NetworkId, TargetName, UserName, Created, LastModified and Description find the caller's names and the network's dates. |
| ControlNetworkIo.InfoGroupNumbers | autocnet/fileio/io_controlnetwork.py:294-296 | NumberOfPoints, NumberOfMeasures and Version find cnet.n, cnet.m and the version. |
| ControlNetworkIo.LabelTreeLookup | autocnet/fileio/io_controlnetwork.py:280-301 | Any key looked up under ProtoBuffer/Core or ProtoBuffer/ControlNetworkInfo is looked up in that block. |
| ControlNetworkIo.LabelTreeBlocks | autocnet/fileio/io_controlnetwork.py:280-299 | ProtoBuffer is an object; under it Core is an object holding the Core entries and ControlNetworkInfo is a group holding the info entries. |
| ControlNetworkIo.CoreGroupDistinct | autocnet/fileio/io_controlnetwork.py:282-285 | No key occurs twice in the Core block, as in the dict it comes from. |
| Pvl.FindReorder | autocnet/fileio/io_controlnetwork.py:280-299 | When keys are distinct, reordering the entries changes no lookup. |
| ControlNetworkIo.LabelAnyOrder | autocnet/fileio/io_controlnetwork.py:280-299 | Whatever order the ProtoBuffer and Core dicts list their items in, every Core and ControlNetworkInfo lookup finds the same value as in the tree as written. |
| ControlNetworkIo.PvlHeaderFields | autocnet/fileio/io_controlnetwork.py:277-301 | Every label field and its source: HeaderStartByte is the argument, HeaderBytes the buffer header size, PointsStartByte HEADERSTARTBYTE plus that size, PointsBytes the points total, and the nine info fields as above. |
| ControlNetworkIo.PvlHeaderBlocks | autocnet/fileio/io_controlnetwork.py:280-299 | In the label create_pvl_header builds, ProtoBuffer and Core are PVL objects, because they are plain dicts, and ControlNetworkInfo is a PVL group, because it is a `PVLGroup`. |
| ControlNetworkIo.PvlHeaderAnyOrder | autocnet/fileio/io_controlnetwork.py:280-299 | Any order of the Core and ProtoBuffer dict items gives the same Core and ControlNetworkInfo values as the label create_pvl_header builds. |
| ControlNetworkIo.CreatePvlHeader | autocnet/fileio/io_controlnetwork.py:275-301 | The label tree, before `pvl.dumps`. Its contract is given by PvlHeaderFields (every value), PvlHeaderBlocks (the object and group kinds) and PvlHeaderAnyOrder (dict order does not matter). These rest on CoreGroupFields, InfoGroupTexts, InfoGroupNumbers, LabelTreeLookup and LabelTreeBlocks. |
| ControlNetworkIo.IsisStore.constructor | autocnet/fileio/io_controlnetwork.py:106-111 | Keeps the path, replaces a missing or empty mode with 'a', and starts with no handle. |
| ControlNetworkIo.EffectiveMode | autocnet/fileio/io_controlnetwork.py:108-110 | The mode is never empty: a given non-empty mode is kept as is, and a missing or empty one becomes 'a'. |
| ControlNetworkIo.IsisStore.Open | autocnet/fileio/io_controlnetwork.py:115-119 | Succeeds exactly for 'wb' and 'a' and opens a fresh handle: 'wb' truncates and 'a' keeps the old bytes and appends. Any other mode raises NotImplemented and leaves the handle unchanged. |
| ControlNetworkIo.IsisStore.Init | autocnet/fileio/io_controlnetwork.py:106-119 | Constructing a store fails exactly when the effective mode is unsupported; otherwise the store holds an open handle with the right initial bytes. |
| ControlNetworkIo.IsisStore.Enter | autocnet/fileio/io_controlnetwork.py:305-306 | Hands back the store itself. |
| ControlNetworkIo.IsisStore.Write | autocnet/fileio/io_controlnetwork.py:121-132 | On a 'wb' handle the file becomes the seek-and-write of data at offset, so an empty write leaves it unchanged. On an 'a' handle data is appended. The handle stays open. |
| FileBytes.WriteAtSpec | autocnet/fileio/io_controlnetwork.py:131-132 | After a seek and a non-empty write, bytes [offset, offset + len(data)) equal data, every other old byte is unchanged, and a gap past the old end reads as zeros. An empty write leaves the file exactly as it was. |
| FileBytes.WriteAt | autocnet/fileio/io_controlnetwork.py:131-132 | After a seek and a non-empty write, the file is as long as the longer of the old file and offset plus len(data). After an empty write its length is unchanged. What it holds is given by WriteAtSpec. |
| FileBytes.WriteAtGap | autocnet/fileio/io_controlnetwork.py:131-132 | Writing bytes past the end gives the old file, zeros up to offset, then data. |
| FileBytes.WriteAtOnto | autocnet/fileio/io_controlnetwork.py:131-132 | Writing at start onto a file that is empty or ends at start either leaves the file as it is (no bytes) or puts data right after it, or after start zeros when the file is empty. |
| FileBytes.WriteAtConsecutive | autocnet/fileio/io_controlnetwork.py:85-91 | On an empty file, writing a at start and then b where a ends gives the same file as writing a + b at start. This holds when either is empty too. |
| FileBytes.WriteAtEnd | autocnet/fileio/io_controlnetwork.py:88-91 | Writing exactly at the end of the file appends. |
| FileBytes.WriteAtStart | autocnet/fileio/io_controlnetwork.py:98 | Writing at offset 0 replaces the first len(data) bytes and keeps the rest. |
| ControlNetworkIo.IsisStore.Close | autocnet/fileio/io_controlnetwork.py:311-314 | Closes the handle if there is one, keeping its bytes, and then forgets it. A second call finds no handle and changes nothing. |
| ControlNetworkIo.IsisStore.Exit | autocnet/fileio/io_controlnetwork.py:308-309 | Always closes, with the same effect as Close. |
| ControlNetworkIo.WritePoints | autocnet/fileio/io_controlnetwork.py:87-91 | Writes point i at the points start plus the sizes of the points before it. On an 'a' handle the file becomes the old bytes followed by all points, in order. On a 'wb' handle that is empty or ends at the points start, the file is the same as if all points were written in one piece at the points start. |
| ControlNetworkIo.PointStep | autocnet/fileio/io_controlnetwork.py:88-91 | One pass of the loop. On an 'a' handle the file is the old bytes followed by the points so far and this one. On a 'wb' handle it is those points written in one piece at the points start, and it ends at the next running offset or is still empty. |
| Layout.PointOffset | autocnet/fileio/io_controlnetwork.py:88-91 | The running offset of point i, never before the points start and equal to it for the first point. OffsetsContiguous, OffsetsMonotone, RegionsDisjoint and LastRegionEnd give the rest of its contract. |
| Layout.OffsetsContiguous | autocnet/fileio/io_controlnetwork.py:88-91 | The next point starts exactly where the previous one ends. |
| Layout.OffsetsMonotone | autocnet/fileio/io_controlnetwork.py:88-91 | Point offsets never decrease. |
| Layout.RegionsDisjoint | autocnet/fileio/io_controlnetwork.py:88-91 | The byte ranges of two different points do not overlap. |
| Layout.LastRegionEnd | autocnet/fileio/io_controlnetwork.py:78-91 | The offset after the last point is the points start plus points_bytes. |
| Layout.FlattenLength | autocnet/fileio/io_controlnetwork.py:78 | The packed points are exactly points_bytes long. |
| Layout.FlattenAt | autocnet/fileio/io_controlnetwork.py:88-91 | Inside the packed points, point i sits at its running offset. |
| Layout.SplitFlatten | autocnet/fileio/io_controlnetwork.py:226 | Cutting the packed points by pointMessageSizes gives back every point record, in order. |
| ControlNetworkIo.PlanSizes | autocnet/fileio/io_controlnetwork.py:77-83 | to_isis produces one record per group, in order; its size list holds the records' lengths, and the buffer header carries that list. |
| ControlNetworkIo.PlanOfParts | autocnet/fileio/io_controlnetwork.py:77-95 | The values to_isis computes step by step are those of its plan. |
| ControlNetworkIo.PlanOf | autocnet/fileio/io_controlnetwork.py:77-98 | Everything to_isis computes: the encoded points of PointsOf, their sizes, the buffer header and its bytes, the label tree and its text. Specified by PlanSizes and PlanOfParts. |
| ControlNetworkIo.FileAfter | autocnet/fileio/io_controlnetwork.py:85-98 | The bytes to_isis leaves in the file, which ToIsis is proved to produce. For 'wb', the header and the points are written in one piece at HEADERSTARTBYTE on the truncated file, then the text at offset 0. For 'a', everything is appended in the order written. Their layout is given by WbBody, EmptyBody, WbFileLayout, ReadBack and LabelMatchesFile. |
| ControlNetworkIo.ToIsis | autocnet/fileio/io_controlnetwork.py:75-98 | Fails with NotImplemented exactly when the effective mode is unsupported. Otherwise the closed file holds FileAfter. For 'wb', that is the header and the points written at HEADERSTARTBYTE on an empty file, then the label written at offset 0. For 'a', it is the old bytes followed by header, points and label. |
| ControlNetworkIo.RecordAfter | autocnet/fileio/io_controlnetwork.py:88-91 | A point packed after any prefix sits at the prefix length plus its running offset. |
| ControlNetworkIo.RecordsAfter | autocnet/fileio/io_controlnetwork.py:88-91 | The same holds for every point at once. |
| ControlNetworkIo.PackedRecords | autocnet/fileio/io_controlnetwork.py:85-91 | In the text, the zero padding, the header and the packed points, every point sits at HEADERSTARTBYTE plus the header size plus its running offset. |
| ControlNetworkIo.TextOverPadding | autocnet/fileio/io_controlnetwork.py:98 | A label that fits below HEADERSTARTBYTE leaves zeros up to HEADERSTARTBYTE and everything after untouched. |
| ControlNetworkIo.PackedBytes | autocnet/fileio/io_controlnetwork.py:85-98 | A 'wb' write is the text, zero padding up to HEADERSTARTBYTE, the header and the packed points, concatenated. |
| ControlNetworkIo.PackedRegions | autocnet/fileio/io_controlnetwork.py:85-98 | In a 'wb' write the text, the zero padding, the header at HEADERSTARTBYTE and the points up to the end of the file each occupy their own region. |
| ControlNetworkIo.PackedLayout | autocnet/fileio/io_controlnetwork.py:85-98 | A 'wb' write has the layout a reader expects (`PackedFile`). The label is at offset 0 with zeros up to HEADERSTARTBYTE. The header is at HEADERSTARTBYTE. The packed points follow, each at its running offset, and the file ends where the last point ends. |
| ControlNetworkIo.WbBody | autocnet/fileio/io_controlnetwork.py:85-98 | When the header or the points hold a byte, the 'wb' file is the text written over zeros up to HEADERSTARTBYTE, followed by the header and the points. |
| ControlNetworkIo.EmptyBody | autocnet/fileio/io_controlnetwork.py:85-98 | When the header and the points hold no byte, the 'wb' file is the text alone. |
| ControlNetworkIo.WbFileLayout | autocnet/fileio/io_controlnetwork.py:85-98 | The same layout (`PackedFile`) holds for the file to_isis writes in 'wb' mode, given at least one header or point byte. |
| ControlNetworkIo.DefaultPlanCoreAgrees | autocnet/fileio/io_controlnetwork.py:277-285 | With the default headerstartbyte, the Core fields equal the header's start and length, the points start and points_bytes. |
| ControlNetworkIo.ReadBack | autocnet/fileio/io_controlnetwork.py:277-285 | Given at least one header or point byte, reading the sections named by the Core fields gives back the buffer header and the points region, PointsBytes runs to the end of the file, and cutting by pointMessageSizes gives back every point. |
| ControlNetworkIo.LabelMatchesFile | autocnet/fileio/io_controlnetwork.py:85-98 | For the file to_isis writes with the default headerstartbyte and at least one header or point byte, the label locates the buffer header and the points exactly, and every point can be recovered. |
| ControlNetworkIo.HeaderStartByteMismatch | autocnet/fileio/io_controlnetwork.py:278-283 | With any other headerstartbyte the header the label describes does not end where PointsStartByte says the points begin. |
| ControlNetworkIo.TextOverflow | autocnet/fileio/io_controlnetwork.py:98 | A label longer than HEADERSTARTBYTE overwrites the first byte of the buffer header. |
| ControlNetworkIo.MeasureCountIsRowCount | autocnet/fileio/io_controlnetwork.py:168-177 | Points with as many measures as their groups have rows hold as many measures in all as the groups hold rows. |
| ControlNetworkIo.LabelCounts | autocnet/fileio/io_controlnetwork.py:294-295 | When cnet.n and cnet.m are the true counts, NumberOfPoints is the number of point records and NumberOfMeasures the number of measures inside them. |
| ControlNetworkIo.EmptyNetwork | autocnet/fileio/io_controlnetwork.py:151-152 | An empty network gives an empty size list, PointsBytes 0 and no point bytes. |

## Left out

- `write_filelist`: plain text output unrelated to the control network format.
- The `isinstance(path, str)` test in `to_isis`: a path is always a string here, so the silent no-op for other path types is not modelled.
- pandas `groupby('pid')` and `iterrows`: the network is already a sequence of groups in groupby order, each with its rows in order.
- Floating point: sample and line are `real` values that are only copied.
- Protobuf wire format: `SerializeToString` is an encoder parameter, and `ByteSize()` is taken to equal the length of the serialisation.
- `pvl.dumps` with `IsisCubeLabelEncoder`: an encoder parameter. The model keeps what the encoder receives: keys, values, and whether each block is an object or a group. It does not model the text, so the length of the label text is unknown and the layout lemmas require it to fit below HEADERSTARTBYTE.
- ControlNetworkIo.CreatePvlHeader: the tree lists the items of the ProtoBuffer and Core dicts in the order the source writes them. Under Python 2 a dict's item order is not fixed, so neither is the order of the label text. The model does not choose an order; instead PvlHeaderAnyOrder shows that every order gives the same values.
- The value of POINT_TYPE: a parameter, because autocnet/control/control.py is not part of this model.
- Operating-system errors (unwritable path, full disk): the model's file system never fails.
- Exceptions that protobuf raises inside the `with` block: assigning a field a value the schema does not accept raises. Examples are a non-string `nid` at :171, a `point_type` outside the MeasureType enum at :172, and a size beyond the int32 range in `pointMessageSizes.extend` at :226. When that happens, `__exit__` closes a 'wb' file that is already truncated. The model's types (`string`, `int`, `nat`) and its total encoder parameters accept every such value, so `ToIsis` returns Success where the source raises: `Row("S1", 99, 0.0, 0.0)` makes the source raise ValueError at :172 and not the model. Such a partial write and the exception it propagates are not modelled.
- `FileBytes.Handle` in 'a' mode follows Python 2 and POSIX O_APPEND behaviour: bytes are appended whatever the seek position. Under Python 3, `open(path, 'a')` yields a text handle, and the first write of bytes at :132 raises TypeError. That failure is not modelled.
- ControlNetworkIo.IsisStore.Write: requires an open handle, so a write after `close` is not modelled. In the source, that write raises AttributeError at :131 because `_handle` is None.
- In 'a' mode the label never agrees with the file, so the label agreement is proved for 'wb' only. The model records the appended bytes (`FileAfter`). Even on an empty file nothing pads to HEADERSTARTBYTE. The buffer header lands at offset 0, where the label says 65536. The label is appended last, not written at offset 0.
