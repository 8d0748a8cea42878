// The API structures that the API internals fill in and the demo
// serializers copy out.
module UwbApiTypes {
  import opened Bytes

  /** The chip the software is built for; several parsers and serializers
      differ by build. */
  datatype Chip = SR100T | SR040

  /** `phRangingParams_t`. `dstMacAddr` stands for the memory the destination
      addresses are copied from. */
  datatype RangingParams = RangingParams(
    deviceRole: u8, multiNodeMode: u8, macAddrMode: u8, noOfControlees: u8,
    deviceMacAddr: seq<u8>, dstMacAddr: seq<u8>, deviceType: u8)

  /** `phDebugParams_t` (SR100T). */
  datatype DebugParams = DebugParams(
    secureThread: u16, secureIsrThread: u16, nonSecureIsrThread: u16, shellThread: u16,
    phyThread: u16, rangingThread: u16, dataLoggerNtf: u8, cirLogNtf: u8, psduLogNtf: u8, rframeLogNtf: u8)

  /** `phUwbDevInfo_t` of SR100T builds: `devName` (48 bytes) and
      `nxpChipId` (16 bytes) are fixed arrays. */
  datatype Sr100tDevInfo = Sr100tDevInfo(
    devNameLen: u8, devName: seq<u8>, fwMajor: u8, fwMinor: u8, fwRc: u8,
    nxpUciMajor: u8, nxpUciMinor: u8, nxpUciPatch: u8, nxpChipId: seq<u8>)

  /** `phUwbDevInfo_t` of SR040 builds: `devName`, `serialNo` and
      `cccVersion` are 8-byte arrays. */
  datatype Sr040DevInfo = Sr040DevInfo(
    devName: seq<u8>, fwMajor: u8, fwMinor: u8, fwPatchVersion: u8,
    devMajor: u8, devMinor: u8, serialNo: seq<u8>,
    dspMajor: u8, dspMinor: u8, dspPatchVersion: u8,
    bbMajor: u8, bbMinor: u8, cccVersion: seq<u8>)

  /** What a parser that trusts the lengths in its input does: it finishes
      with its boolean result and the structure as far as it filled it in, or
      it reads past the end of the input it was given. */
  datatype Parsed<T> = Done(ok: bool, value: T) | PastEnd
}
