// The UCI packet header: byte 0 holds the message type (MT, bits 7..5), the
// packet boundary flag (PBF, bit 4) and the group id (GID, bits 3..0); byte 1
// holds the opcode id (OID, bits 5..0); byte 3 the payload length.
module UciDefs {
  import opened Bytes

  const UCI_MSG_HDR_SIZE: nat := 4
  const UCI_MAX_PAYLOAD_SIZE: nat := 0xFF

  const UCI_MT_CMD: u8 := 0x01
  const UCI_MT_RSP: u8 := 0x02
  const UCI_MT_NTF: u8 := 0x03

  /** The packet boundary flag as it sits in header byte 0. */
  const UCI_PBF_NO_OR_LAST: u8 := 0x00
  const UCI_PBF_ST_CONT: u8 := 0x10

  const UCI_GID_CORE: u8 := 0x00
  const UCI_GID_SESSION_MANAGE: u8 := 0x01
  const UCI_GID_RANGE_MANAGE: u8 := 0x02
  const UCI_GID_APP_DATA_MANAGE: u8 := 0x03
  const UCI_GID_TEST: u8 := 0x0D
  const UCI_GID_PROPRIETARY: u8 := 0x0E

  const MAX_NUM_CONTROLLEES: nat := 8

  /** A buffer that holds at least a UCI header. */
  type UciPacket = s: seq<u8> | |s| >= UCI_MSG_HDR_SIZE witness [0, 0, 0, 0]

  /** The fields of header byte 0. */
  datatype Hdr0 = Hdr0(mt: u8, pbf: u8, gid: u8)

  /** `UCI_MSG_BLD_HDR0`: the type shifted into bits 7..5 or-ed with the group
      id, truncated to a byte. */
  function BuildHdr0(mt: u8, gid: u8): (b: u8)
    ensures mt < 8 && gid < 16 ==> b == mt * 32 + gid
  {
    ((((mt as bv8) << 5) | (gid as bv8)) as u8)
  }

  /** `UCI_MSG_PBLD_HDR0`: as `BuildHdr0` with the boundary flag in bit 4. */
  function PBuildHdr0(mt: u8, pbf: u8, gid: u8): (b: u8)
    ensures mt < 8 && pbf < 2 && gid < 16 ==> b == mt * 32 + pbf * 16 + gid
  {
    ((((mt as bv8) << 5) | ((pbf as bv8) << 4) | (gid as bv8)) as u8)
  }

  /** `UCI_MSG_BLD_HDR1`: the opcode id, unshifted. */
  function BuildHdr1(oid: u8): (b: u8)
    ensures b == oid
  {
    ((oid as bv8) << 0) as u8
  }

  /** `UCI_MSG_PRS_HDR0`: the three fields of byte 0 (masks 0xE0, 0x10 and
      0x0F, written here as the equivalent divisions of a byte); together
      they make up the whole byte. */
  function ParseHdr0(b: u8): (h: Hdr0)
    ensures h.mt < 8 && h.pbf < 2 && h.gid < 16
    ensures b == h.mt * 32 + h.pbf * 16 + h.gid
  {
    Hdr0(b / 32, (b / 16) % 2, b % 16)
  }

  /** `UCI_MSG_PRS_HDR1`: the opcode id is the low six bits (mask 0x3F) of
      byte 1. */
  function ParseHdr1(b: u8): (oid: u8)
    ensures oid < 64
    ensures b < 64 ==> oid == b
  {
    b % 64
  }

  /** Writing a header byte through the stream pointer: the byte is appended
      and the write position moves on by one. */
  function PutHdr0(out: seq<u8>, mt: u8, gid: u8): (r: seq<u8>)
    ensures |r| == |out| + 1 && r[..|out|] == out
    ensures mt < 8 && gid < 16 ==> ParseHdr0(r[|out|]) == Hdr0(mt, 0, gid)
  {
    out + [BuildHdr0(mt, gid)]
  }

  /** Parsing a built header gives back the type and the group, with no
      boundary flag. */
  lemma ParseBuildHdr0(mt: u8, gid: u8)
    requires mt < 8 && gid < 16
    ensures ParseHdr0(BuildHdr0(mt, gid)) == Hdr0(mt, 0, gid)
  {
    var h := ParseHdr0(BuildHdr0(mt, gid));
    assert h.mt * 32 + h.pbf * 16 + h.gid == mt * 32 + gid;
  }

  /** The same with the boundary flag. */
  lemma ParsePBuildHdr0(mt: u8, pbf: u8, gid: u8)
    requires mt < 8 && pbf < 2 && gid < 16
    ensures ParseHdr0(PBuildHdr0(mt, pbf, gid)) == Hdr0(mt, pbf, gid)
  {
    var h := ParseHdr0(PBuildHdr0(mt, pbf, gid));
    assert h.mt * 32 + h.pbf * 16 + h.gid == mt * 32 + pbf * 16 + gid;
  }

  /** A built opcode byte parses back to the opcode when it fits in six bits. */
  lemma ParseBuildHdr1(oid: u8)
    requires oid < 64
    ensures ParseHdr1(BuildHdr1(oid)) == oid
  {
  }

  /** Whether byte 1 of a header announces the extended 16-bit length. */
  predicate ExtendedLength(b1: u8)
  {
    (b1 as bv8) & 0x80 != 0
  }

  /** The payload length a header announces: byte 3, or bytes 3 (high) and 2
      (low) when the extended-length bit of byte 1 is set. */
  function PayloadLength(p: UciPacket): (n: nat)
    ensures n < 0x1_0000
    ensures !ExtendedLength(p[1]) ==> n == p[3]
    ensures ExtendedLength(p[1]) ==> n == LE16(p[2], p[3])
  {
    if ExtendedLength(p[1]) then LE16(p[2], p[3]) else p[3]
  }

  /** The extended-length bit is the top bit of the byte. */
  lemma ExtendedLengthIsTopBit(b1: u8)
    ensures ExtendedLength(b1) <==> b1 >= 0x80
  {
  }
}
