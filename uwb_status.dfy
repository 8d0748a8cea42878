// The status composition macros of the HAL: a status code in the low byte
// and the reporting component's id in the high byte of a 16-bit status.
module UwbStatus {
  import opened Bytes

  const UWBSTATUS_SUCCESS: u16 := 0x0000

  /** `PHUWBSTVAL`: success stays success; any other code keeps its low byte
      and takes the component id shifted into the high byte, truncated to the
      16-bit status type. */
  function StVal(compId: u16, status: u16): (r: u16)
    ensures status == UWBSTATUS_SUCCESS ==> r == UWBSTATUS_SUCCESS
    ensures status != UWBSTATUS_SUCCESS ==> r % 0x100 == status % 0x100 && r / 0x100 == compId % 0x100
  {
    if status == UWBSTATUS_SUCCESS then UWBSTATUS_SUCCESS
    else (status % 0x100) + (compId * 0x100) % 0x1_0000
  }

  /** `PHUWBSTATUS`: the status code of a composed status. */
  function Status(s: u16): (r: u8)
    ensures r as int == s % 0x100
  {
    s % 0x100
  }

  /** `PHUWBCID`: the component id of a composed status. */
  function CompId(s: u16): (r: u8)
    ensures r as int == s / 0x100
  {
    s / 0x100
  }

  /** A byte-sized code and component id are recovered from the composed
      status, and the composed status is never taken for success. */
  lemma StValRoundTrip(compId: u16, status: u16)
    requires compId < 0x100 && 0 < status < 0x100
    ensures Status(StVal(compId, status)) as int == status
    ensures CompId(StVal(compId, status)) as int == compId
    ensures StVal(compId, status) != UWBSTATUS_SUCCESS
  {
  }

  /** A component's statuses differ when their codes do. */
  lemma StValInjective(compId: u16, s1: u16, s2: u16)
    requires compId < 0x100 && 0 < s1 < 0x100 && 0 < s2 < 0x100 && s1 != s2
    ensures StVal(compId, s1) != StVal(compId, s2)
  {
    StValRoundTrip(compId, s1);
    StValRoundTrip(compId, s2);
  }

  /** A code wider than a byte loses its high byte: INVALID_DEVICE (0xFFFF)
      and a code of 0xFF from the same component are the same status. */
  lemma WideCodeTruncated(compId: u16)
    ensures StVal(compId, 0xFFFF) == StVal(compId, 0x00FF)
  {
  }
}
