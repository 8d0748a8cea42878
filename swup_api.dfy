// The SR040 software-update (SWUP) command interface: the RCI frame
// constants, the pointer-advancing stream readers the responses are decoded
// with, the two transfer frames and the device-information responses.
module SwupApi {
  import opened Bytes

  const TRANSFER_MANIFEST_SIZE := 512
  const TRANSFER_CHUNK_SIZE := 128
  const TRANSFER_MANIFEST_OFFSET := 0
  const TRANSFER_MANIFEST_SEGMENT_SIZE := 128
  const TRANSFER_COMPONENT_0_OFFSET := 512
  const TRANSFER_COMPONENT_SEGMENT_SIZE := 128

  const SWUP_COMMAND: u8 := 0x70
  const SWUP_FRAME_TYPE: u8 := 0x3A
  const SWUP_RCI_DATA_OFFSET := 4
  const SWUP_RCI_HEADER_LEN := 4

  const SWUP_SUB_CMD_GET_DEVICE_INFO: u8 := 0x21
  const SWUP_SUB_CMD_READ_DEVICE_ID: u8 := 0x22
  const SWUP_SUB_CMD_TRANSFER_MANIFEST: u8 := 0x02
  const SWUP_SUB_CMD_TRANSFER_COMPONENT: u8 := 0x01

  /** Payload lengths: a component segment travels with its component index
      and a two-byte segment number, a manifest chunk with its chunk index. */
  const SWUP_LEN_TRANSFER_COMPONENT: u8 := TRANSFER_COMPONENT_SEGMENT_SIZE + 3
  const SWUP_LEN_TRANSFER_MANIFEST: u8 := TRANSFER_MANIFEST_SEGMENT_SIZE + 1

  /** Payload lengths the host insists on in the two identification responses. */
  const DEVICE_INFO_LEN: u8 := 0x2C
  const DEVICE_ID_LEN: u8 := 0x1C

  /** Size of the buffer every response is read into. */
  const RESPONSE_BUFFER_SIZE := 256

  const STATUS_CMD_SUCCESS: u32 := 0x0000_0000
  const STATUS_GENERIC_ERROR: u32 := 0xFFFF_FFFF

  const SWUP_STATUS_ERROR: u32 := 0x00
  const SWUP_STATUS_INIT: u32 := 0x01
  const SWUP_STATUS_ACTIVE: u32 := 0x02
  const SWUP_STATUS_TRANSFER: u32 := 0x03

  const KEY_VERSION_UNKNOWN: u32 := 0x0000_0000
  const KEY_VERSION_ENG_Z20_05: u32 := 0x0E0_2005
  const KEY_VERSION_PROD_A20_06: u32 := 0x0A_0206

  /** A read cursor over a byte buffer: the pointer the STREAM_TO_* macros
      read through and advance. */
  class Stream {
    var data: seq<u8>
    var pos: nat

    constructor (data: seq<u8>, pos: nat)
      ensures this.data == data && this.pos == pos
    {
      this.data := data;
      this.pos := pos;
    }

    /** STREAM_TO_UINT32: the next four bytes, least significant first. */
    method ToUint32() returns (v: u32)
      requires pos + 4 <= |data|
      modifies this
      ensures data == old(data) && pos == old(pos) + 4
      ensures v == U32At(data, old(pos))
      ensures ToLE32(v) == data[old(pos)..old(pos) + 4]
    {
      var acc: int := data[pos + 3];
      acc := acc * 0x100 + data[pos + 2];
      acc := acc * 0x100 + data[pos + 1];
      acc := acc * 0x100 + data[pos];
      v := acc;
      assert v == U32At(data, pos);
      pos := pos + 4;
    }

    /** STREAM_TO_UINT16: the next two bytes, least significant first. */
    method ToUint16() returns (v: u16)
      requires pos + 2 <= |data|
      modifies this
      ensures data == old(data) && pos == old(pos) + 2
      ensures v == U16At(data, old(pos))
      ensures ToLE16(v) == data[old(pos)..old(pos) + 2]
    {
      var acc: int := data[pos + 1];
      acc := acc * 0x100 + data[pos];
      v := acc;
      assert v == U16At(data, pos);
      pos := pos + 2;
    }

    /** STREAM_TO_ARRAY: the next `len` bytes, copied one at a time. */
    method ToArray(len: nat) returns (a: seq<u8>)
      requires pos + len <= |data|
      modifies this
      ensures data == old(data) && pos == old(pos) + len
      ensures a == data[old(pos)..old(pos) + len]
    {
      a := [];
      var ijk := 0;
      while ijk < len
        invariant 0 <= ijk <= len
        invariant pos == old(pos) + ijk && data == old(data)
        invariant a == data[old(pos)..pos]
      {
        a := a + [data[pos]];
        pos := pos + 1;
        ijk := ijk + 1;
      }
    }
  }

  /** The TRANSFER_MANIFEST frame for one 128-byte manifest chunk. */
  function TransferManifestFrame(index: u8, chunk: seq<u8>): (f: seq<u8>)
    requires |chunk| == TRANSFER_MANIFEST_SEGMENT_SIZE
    ensures |f| == SWUP_RCI_HEADER_LEN + SWUP_LEN_TRANSFER_MANIFEST
    ensures f[0] == SWUP_COMMAND && f[1] == SWUP_SUB_CMD_TRANSFER_MANIFEST && f[2] == SWUP_FRAME_TYPE
    ensures f[3] == |f| - SWUP_RCI_HEADER_LEN
    ensures f[4] == index && f[5..] == chunk
  {
    [SWUP_COMMAND, SWUP_SUB_CMD_TRANSFER_MANIFEST, SWUP_FRAME_TYPE, SWUP_LEN_TRANSFER_MANIFEST, index] + chunk
  }

  /** The TRANSFER_COMPONENT frame for one 128-byte component segment; the
      segment number goes out least significant byte first. */
  function TransferComponentFrame(component: u8, segment: u16, chunk: seq<u8>): (f: seq<u8>)
    requires |chunk| == TRANSFER_COMPONENT_SEGMENT_SIZE
    ensures |f| == SWUP_RCI_HEADER_LEN + SWUP_LEN_TRANSFER_COMPONENT
    ensures f[0] == SWUP_COMMAND && f[1] == SWUP_SUB_CMD_TRANSFER_COMPONENT && f[2] == SWUP_FRAME_TYPE
    ensures f[3] == |f| - SWUP_RCI_HEADER_LEN
    ensures f[4] == component && U16At(f, 5) == segment && f[7..] == chunk
  {
    var f := [SWUP_COMMAND, SWUP_SUB_CMD_TRANSFER_COMPONENT, SWUP_FRAME_TYPE, SWUP_LEN_TRANSFER_COMPONENT, component]
      + ToLE16(segment) + chunk;
    assert f[5..7] == ToLE16(segment);
    f
  }

  /** The device-information record of GET_DEVICE_INFO. */
  datatype DeviceInfo = DeviceInfo(
    swupStatus: u32, productId: seq<u8>, hardwareId: u32,
    typeCheckId: seq<u8>, romId: seq<u8>, swupVersion: seq<u8>)
  {
    /** The byte arrays have the sizes of the C record's fields. */
    predicate Valid()
    {
      |productId| == 8 && |typeCheckId| == 8 && |romId| == 8 && |swupVersion| == 8
    }
  }

  /** The record a caller starts from: everything zero. */
  const ZeroInfo := DeviceInfo(0, Zeros(8), 0, Zeros(8), Zeros(8), Zeros(8))

  /** What Swup_GetDeviceInfo leaves behind: its status and the record. */
  datatype DeviceInfoReply = DeviceInfoReply(error: u32, info: DeviceInfo)

  /** Decoding a GET_DEVICE_INFO response held in the 256-byte response
      buffer, starting from a zero record: a response whose command, sub
      command or length byte is wrong is a generic error and leaves the
      record alone; otherwise the status word and SWUP status are read, and
      the rest of the record only when the status word is success. */
  function DecodeDeviceInfo(resp: seq<u8>): (r: DeviceInfoReply)
    requires |resp| == RESPONSE_BUFFER_SIZE
    ensures resp[0] != SWUP_COMMAND || resp[1] != SWUP_SUB_CMD_GET_DEVICE_INFO || resp[3] != DEVICE_INFO_LEN
            ==> r == DeviceInfoReply(STATUS_GENERIC_ERROR, ZeroInfo)
    ensures resp[0] == SWUP_COMMAND && resp[1] == SWUP_SUB_CMD_GET_DEVICE_INFO && resp[3] == DEVICE_INFO_LEN
            ==> ToLE32(r.error) == resp[4..8] && ToLE32(r.info.swupStatus) == resp[8..12]
    ensures r.error != STATUS_CMD_SUCCESS ==> r.info == ZeroInfo.(swupStatus := r.info.swupStatus)
    ensures r.info.Valid()
  {
    if resp[0] != SWUP_COMMAND || resp[1] != SWUP_SUB_CMD_GET_DEVICE_INFO || resp[3] != DEVICE_INFO_LEN then
      DeviceInfoReply(STATUS_GENERIC_ERROR, ZeroInfo)
    else
      var error := U32At(resp, 4);
      var status := U32At(resp, 8);
      if error != STATUS_CMD_SUCCESS then
        DeviceInfoReply(error, ZeroInfo.(swupStatus := status))
      else
        DeviceInfoReply(error, DeviceInfo(status, resp[12..20], U32At(resp, 20), resp[24..32], resp[32..40], resp[40..48]))
  }

  /** Swup_GetDeviceInfo's decoding, read through a stream cursor placed at
      the data offset of the response. */
  method GetDeviceInfo(resp: seq<u8>) returns (r: DeviceInfoReply)
    requires |resp| == RESPONSE_BUFFER_SIZE
    ensures r == DecodeDeviceInfo(resp)
  {
    if resp[0] != SWUP_COMMAND || resp[1] != SWUP_SUB_CMD_GET_DEVICE_INFO || resp[3] != DEVICE_INFO_LEN {
      return DeviceInfoReply(STATUS_GENERIC_ERROR, ZeroInfo);
    }
    var ptr := new Stream(resp, SWUP_RCI_DATA_OFFSET);
    var error := ptr.ToUint32();
    var status := ptr.ToUint32();
    var info := ZeroInfo.(swupStatus := status);
    if error == STATUS_CMD_SUCCESS {
      var productId := ptr.ToArray(8);
      var hardwareId := ptr.ToUint32();
      var typeCheckId := ptr.ToArray(8);
      var romId := ptr.ToArray(8);
      var swupVersion := ptr.ToArray(8);
      info := DeviceInfo(status, productId, hardwareId, typeCheckId, romId, swupVersion);
    }
    r := DeviceInfoReply(error, info);
  }

  /** The payload of a GET_DEVICE_INFO response with status word `error`. */
  function DeviceInfoPayload(error: u32, d: DeviceInfo): (p: seq<u8>)
    requires d.Valid()
    ensures |p| == DEVICE_INFO_LEN
  {
    ToLE32(error) + ToLE32(d.swupStatus) + d.productId + ToLE32(d.hardwareId)
      + d.typeCheckId + d.romId + d.swupVersion
  }

  /** A GET_DEVICE_INFO response as the device sends it, padded to the
      response buffer. */
  function DeviceInfoResponse(error: u32, d: DeviceInfo, frameType: u8): (resp: seq<u8>)
    requires d.Valid()
    ensures |resp| == RESPONSE_BUFFER_SIZE
  {
    [SWUP_COMMAND, SWUP_SUB_CMD_GET_DEVICE_INFO, frameType, DEVICE_INFO_LEN] + DeviceInfoPayload(error, d)
      + Zeros(RESPONSE_BUFFER_SIZE - SWUP_RCI_HEADER_LEN - DEVICE_INFO_LEN)
  }

  /** Where each field lies in a device-information payload. */
  lemma DeviceInfoLayout(error: u32, d: DeviceInfo)
    requires d.Valid()
    ensures var p := DeviceInfoPayload(error, d);
            U32At(p, 0) == error && U32At(p, 4) == d.swupStatus &&
            p[8..16] == d.productId && U32At(p, 16) == d.hardwareId &&
            p[20..28] == d.typeCheckId && p[28..36] == d.romId && p[36..44] == d.swupVersion
  {
    var p := DeviceInfoPayload(error, d);
    Layout7(ToLE32(error), ToLE32(d.swupStatus), d.productId, ToLE32(d.hardwareId),
            d.typeCheckId, d.romId, d.swupVersion);
    LE32Injective(U32At(p, 0), error);
    LE32Injective(U32At(p, 4), d.swupStatus);
    LE32Injective(U32At(p, 16), d.hardwareId);
  }

  /** The length byte the host insists on is exactly the size of what it
      reads: the status word and SWUP status always come back, and on
      success every field of the record does. */
  lemma DeviceInfoRoundTrip(error: u32, d: DeviceInfo, frameType: u8)
    requires d.Valid()
    ensures DecodeDeviceInfo(DeviceInfoResponse(error, d, frameType))
            == if error == STATUS_CMD_SUCCESS then DeviceInfoReply(error, d)
               else DeviceInfoReply(error, ZeroInfo.(swupStatus := d.swupStatus))
  {
    var h := [SWUP_COMMAND, SWUP_SUB_CMD_GET_DEVICE_INFO, frameType, DEVICE_INFO_LEN];
    var p := DeviceInfoPayload(error, d);
    var resp := DeviceInfoResponse(error, d, frameType);
    MidSlice(h, p, Zeros(RESPONSE_BUFFER_SIZE - SWUP_RCI_HEADER_LEN - DEVICE_INFO_LEN), 0, |p|);
    assert resp[4..48] == p;
    DeviceInfoAt(resp, error, d);
  }

  /** The fields of an information payload stored at offset 4 of a
      response are read back from their own offsets. */
  lemma DeviceInfoAt(resp: seq<u8>, error: u32, d: DeviceInfo)
    requires d.Valid() && |resp| == RESPONSE_BUFFER_SIZE && resp[4..48] == DeviceInfoPayload(error, d)
    ensures U32At(resp, 4) == error && U32At(resp, 8) == d.swupStatus &&
            resp[12..20] == d.productId && U32At(resp, 20) == d.hardwareId &&
            resp[24..32] == d.typeCheckId && resp[32..40] == d.romId && resp[40..48] == d.swupVersion
  {
    var p := DeviceInfoPayload(error, d);
    DeviceInfoLayout(error, d);
    U32AtSlice(resp, 4, 48, p, 0);
    U32AtSlice(resp, 4, 48, p, 4);
    U32AtSlice(resp, 4, 48, p, 16);
    SliceOfSlice(resp, 4, 48, p, 8, 16);
    SliceOfSlice(resp, 4, 48, p, 20, 28);
    SliceOfSlice(resp, 4, 48, p, 28, 36);
    SliceOfSlice(resp, 4, 48, p, 36, 44);
  }

  /** The device-identification record of READ_DEVICE_ID. */
  datatype DeviceId = DeviceId(
    swupStatus: u32, waferId: seq<u8>, waferNumber: u8,
    waferCoordinateX: u16, waferCoordinateY: u16, serialNumber: u32)
  {
    predicate Valid()
    {
      |waferId| == 11
    }
  }

  const ZeroId := DeviceId(0, Zeros(11), 0, 0, 0, 0)

  datatype DeviceIdReply = DeviceIdReply(error: u32, id: DeviceId)

  /** Decoding a READ_DEVICE_ID response, with the same rules as
      DecodeDeviceInfo and a length byte of 0x1C. */
  function DecodeDeviceId(resp: seq<u8>): (r: DeviceIdReply)
    requires |resp| == RESPONSE_BUFFER_SIZE
    ensures resp[0] != SWUP_COMMAND || resp[1] != SWUP_SUB_CMD_READ_DEVICE_ID || resp[3] != DEVICE_ID_LEN
            ==> r == DeviceIdReply(STATUS_GENERIC_ERROR, ZeroId)
    ensures resp[0] == SWUP_COMMAND && resp[1] == SWUP_SUB_CMD_READ_DEVICE_ID && resp[3] == DEVICE_ID_LEN
            ==> ToLE32(r.error) == resp[4..8] && ToLE32(r.id.swupStatus) == resp[8..12]
    ensures r.error != STATUS_CMD_SUCCESS ==> r.id == ZeroId.(swupStatus := r.id.swupStatus)
    ensures r.id.Valid()
  {
    if resp[0] != SWUP_COMMAND || resp[1] != SWUP_SUB_CMD_READ_DEVICE_ID || resp[3] != DEVICE_ID_LEN then
      DeviceIdReply(STATUS_GENERIC_ERROR, ZeroId)
    else
      var error := U32At(resp, 4);
      var status := U32At(resp, 8);
      if error != STATUS_CMD_SUCCESS then
        DeviceIdReply(error, ZeroId.(swupStatus := status))
      else
        DeviceIdReply(error, DeviceId(status, resp[12..23], resp[23], U16At(resp, 24), U16At(resp, 26), U32At(resp, 28)))
  }

  /** Swup_ReadDeviceId's decoding through a stream cursor. */
  method ReadDeviceId(resp: seq<u8>) returns (r: DeviceIdReply)
    requires |resp| == RESPONSE_BUFFER_SIZE
    ensures r == DecodeDeviceId(resp)
  {
    if resp[0] != SWUP_COMMAND || resp[1] != SWUP_SUB_CMD_READ_DEVICE_ID || resp[3] != DEVICE_ID_LEN {
      return DeviceIdReply(STATUS_GENERIC_ERROR, ZeroId);
    }
    var ptr := new Stream(resp, SWUP_RCI_DATA_OFFSET);
    var error := ptr.ToUint32();
    var status := ptr.ToUint32();
    var id := ZeroId.(swupStatus := status);
    if error == STATUS_CMD_SUCCESS {
      var waferId := ptr.ToArray(11);
      var waferNumber := ptr.ToArray(1);
      var x := ptr.ToUint16();
      var y := ptr.ToUint16();
      var serial := ptr.ToUint32();
      id := DeviceId(status, waferId, waferNumber[0], x, y, serial);
    }
    r := DeviceIdReply(error, id);
  }

  function DeviceIdPayload(error: u32, d: DeviceId): (p: seq<u8>)
    requires d.Valid()
    ensures |p| == DEVICE_ID_LEN
  {
    ToLE32(error) + ToLE32(d.swupStatus) + d.waferId + [d.waferNumber]
      + ToLE16(d.waferCoordinateX) + ToLE16(d.waferCoordinateY) + ToLE32(d.serialNumber)
  }

  function DeviceIdResponse(error: u32, d: DeviceId, frameType: u8): (resp: seq<u8>)
    requires d.Valid()
    ensures |resp| == RESPONSE_BUFFER_SIZE
  {
    [SWUP_COMMAND, SWUP_SUB_CMD_READ_DEVICE_ID, frameType, DEVICE_ID_LEN] + DeviceIdPayload(error, d)
      + Zeros(RESPONSE_BUFFER_SIZE - SWUP_RCI_HEADER_LEN - DEVICE_ID_LEN)
  }

  /** Where each field lies in a device-identification payload. */
  lemma DeviceIdLayout(error: u32, d: DeviceId)
    requires d.Valid()
    ensures var p := DeviceIdPayload(error, d);
            U32At(p, 0) == error && U32At(p, 4) == d.swupStatus &&
            p[8..19] == d.waferId && p[19] == d.waferNumber &&
            U16At(p, 20) == d.waferCoordinateX && U16At(p, 22) == d.waferCoordinateY &&
            U32At(p, 24) == d.serialNumber
  {
    var p := DeviceIdPayload(error, d);
    Layout7(ToLE32(error), ToLE32(d.swupStatus), d.waferId, [d.waferNumber],
            ToLE16(d.waferCoordinateX), ToLE16(d.waferCoordinateY), ToLE32(d.serialNumber));
    LE32Injective(U32At(p, 0), error);
    LE32Injective(U32At(p, 4), d.swupStatus);
    LE16Injective(U16At(p, 20), d.waferCoordinateX);
    LE16Injective(U16At(p, 22), d.waferCoordinateY);
    LE32Injective(U32At(p, 24), d.serialNumber);
  }

  /** The status word and SWUP status always come back, and on success
      every field of the identification record does. */
  lemma DeviceIdRoundTrip(error: u32, d: DeviceId, frameType: u8)
    requires d.Valid()
    ensures DecodeDeviceId(DeviceIdResponse(error, d, frameType))
            == if error == STATUS_CMD_SUCCESS then DeviceIdReply(error, d)
               else DeviceIdReply(error, ZeroId.(swupStatus := d.swupStatus))
  {
    var h := [SWUP_COMMAND, SWUP_SUB_CMD_READ_DEVICE_ID, frameType, DEVICE_ID_LEN];
    var p := DeviceIdPayload(error, d);
    var resp := DeviceIdResponse(error, d, frameType);
    MidSlice(h, p, Zeros(RESPONSE_BUFFER_SIZE - SWUP_RCI_HEADER_LEN - DEVICE_ID_LEN), 0, |p|);
    assert resp[4..32] == p;
    DeviceIdAt(resp, error, d);
  }

  /** The fields of an identification payload stored at offset 4 of a
      response are read back from their own offsets. */
  lemma DeviceIdAt(resp: seq<u8>, error: u32, d: DeviceId)
    requires d.Valid() && |resp| == RESPONSE_BUFFER_SIZE && resp[4..32] == DeviceIdPayload(error, d)
    ensures U32At(resp, 4) == error && U32At(resp, 8) == d.swupStatus &&
            resp[12..23] == d.waferId && resp[23] == d.waferNumber &&
            U16At(resp, 24) == d.waferCoordinateX && U16At(resp, 26) == d.waferCoordinateY &&
            U32At(resp, 28) == d.serialNumber
  {
    var p := DeviceIdPayload(error, d);
    DeviceIdLayout(error, d);
    U32AtSlice(resp, 4, 32, p, 0);
    U32AtSlice(resp, 4, 32, p, 4);
    U32AtSlice(resp, 4, 32, p, 24);
    U16AtSlice(resp, 4, 32, p, 20);
    U16AtSlice(resp, 4, 32, p, 22);
    SliceOfSlice(resp, 4, 32, p, 8, 19);
    assert resp[23] == p[19];
  }

}
